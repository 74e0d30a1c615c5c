/**
  The robot pose tracker of the simulator's controller: it keeps the robot's
  position and orientation and repaints the maze view whenever the robot is
  placed, turns or moves, then reconciles the view with the explorer's map of
  sensed cells.
 */
module Simulator {
  import opened Wrappers
  import opened MazeGrid
  import opened Pose

  /**
    The explorer's constants the reconciliation reads: the anchors of the
    START and GOAL zones and the codes its map uses for a sensed empty cell
    and a sensed obstacle.
   */
  datatype ExplorerConstants = ExplorerConstants(
    startX: int, startY: int,
    goalX: int, goalY: int,
    isEmpty: int, isObstacle: int)

  /** The status line a reset reports. */
  datatype Status = RobotPositionOutOfRange | RobotInitialPositionSet

  /** The explorer's map is indexed [x][y] and covers the whole arena. */
  predicate RefShaped(mazeRef: array2<int>) {
    mazeRef.Length0 >= MAP_LENGTH && mazeRef.Length1 >= MAP_WIDTH
  }

  /** The one-based start coordinates a reset accepts. */
  predicate ResetInRange(x: int, y: int) {
    !(x < 2 || x > 14 || y < 2 || y > 9)
  }

  /**
    The colour of arena cell (x, y) after reconciliation with its map entry
    `ref`, the robot being at (px, py) and the cell having been `prior`: a
    sensed empty cell outside the footprint becomes orange inside the START or
    GOAL 3x3 zone and green elsewhere, a sensed obstacle becomes red, and any
    other cell keeps its colour.
   */
  function Reconciled(k: ExplorerConstants, ref: int, px: int, py: int, x: int, y: int, prior: Color): Color {
    if ref == k.isEmpty then
      if InFootprint(px, py, x, y) then prior
      else if InFootprint(k.startX, k.startY, x, y) || InFootprint(k.goalX, k.goalY, x, y) then ORANGE
      else GREEN
    else if ref == k.isObstacle then RED
    else prior
  }

  class Controller {
    /** The maze view, indexed [row][col]. */
    const maze: array2<Color>
    var posX: int
    var posY: int
    /** None until the first successful reset. */
    var orientation: Option<Orientation>

    ghost predicate Valid()
      reads this
    {
      && maze.Length0 == MAP_WIDTH && maze.Length1 == MAP_LENGTH
      && (orientation.Some? ==> FootprintInside(posX, posY))
    }

    constructor (maze: array2<Color>)
      requires maze.Length0 == MAP_WIDTH && maze.Length1 == MAP_LENGTH
      ensures Valid() && this.maze == maze
      ensures posX == 0 && posY == 0 && orientation == None
    {
      this.maze := maze;
      posX, posY := 0, 0;
      orientation := None;
    }

    /** Blanks every cell to black, then marks the two safe corners orange. */
    method ResetMaze()
      requires Valid()
      modifies maze
      ensures forall r, c :: InView(r, c) ==> maze[r, c] == BlankColor(r, c)
    {
      var x := 0;
      while x < MAP_WIDTH
        invariant 0 <= x <= MAP_WIDTH
        invariant forall r, c :: InView(r, c) && r < x ==> maze[r, c] == BlankColor(r, c)
      {
        var y := 0;
        while y < MAP_LENGTH
          invariant 0 <= y <= MAP_LENGTH
          invariant forall r, c :: InView(r, c) && (r < x || (r == x && c < y)) ==> maze[r, c] == BlankColor(r, c)
        {
          maze[x, y] := BLACK;
          if (0 <= x <= 2 && 12 <= y <= 14) || (0 <= y <= 2 && 17 <= x <= 19) {
            maze[x, y] := ORANGE;
          }
          y := y + 1;
        }
        x := x + 1;
      }
    }

    /** Draws the footprint of a robot at (px, py) facing o: the front cell pink, the rest cyan. */
    method PaintFootprint(px: int, py: int, o: Orientation)
      requires Valid() && FootprintInside(px, py)
      modifies maze
      ensures forall r, c :: InView(r, c) ==> maze[r, c] == FootprintPaint(px, py, o, r, c, old(maze[r, c]))
    {
      var row := Flip(py + 1);
      while row <= Flip(py - 1)
        invariant Flip(py + 1) <= row <= Flip(py - 1) + 1
        invariant forall r, c :: InView(r, c) ==>
          maze[r, c] == if r < row then FootprintPaint(px, py, o, r, c, old(maze[r, c])) else old(maze[r, c])
      {
        var col := px - 1;
        while col <= px + 1
          invariant px - 1 <= col <= px + 2
          invariant forall r, c :: InView(r, c) ==>
            maze[r, c] == if r < row || (r == row && c < col) then FootprintPaint(px, py, o, r, c, old(maze[r, c])) else old(maze[r, c])
        {
          maze[row, col] := if IsFront(px, py, o, col, Flip(row)) then PINK else CYAN;
          col := col + 1;
        }
        row := row + 1;
      }
    }

    /**
      Places the robot with one-based coordinates (x, y) facing north. An
      out-of-range position blanks the whole maze instead and leaves the pose
      as it was.
     */
    method ResetRobotInMaze(x: int, y: int) returns (status: Status)
      requires Valid()
      modifies this, maze
      ensures Valid()
      ensures status == if ResetInRange(x, y) then RobotInitialPositionSet else RobotPositionOutOfRange
      ensures !ResetInRange(x, y) ==>
        && posX == old(posX) && posY == old(posY) && orientation == old(orientation)
        && forall r, c :: InView(r, c) ==> maze[r, c] == BlankColor(r, c)
      ensures ResetInRange(x, y) ==>
        && posX == x - 1 && posY == y - 1 && orientation == Some(NORTH)
        && forall r, c :: InView(r, c) ==> maze[r, c] == FootprintPaint(x - 1, y - 1, NORTH, r, c, old(maze[r, c]))
    {
      if x < 2 || x > 14 || y < 2 || y > 9 {
        status := RobotPositionOutOfRange;
        ResetMaze();
      } else {
        PaintFootprint(x - 1, y - 1, NORTH);
        orientation := Some(NORTH);
        posX, posY := x - 1, y - 1;
        status := RobotInitialPositionSet;
      }
    }

    /** Repaints the view from the explorer's map, leaving the robot's footprint alone. */
    method UpdateMazeColor(mazeRef: array2<int>, k: ExplorerConstants)
      requires Valid() && RefShaped(mazeRef)
      modifies maze
      ensures forall r, c :: InView(r, c) ==>
        maze[r, c] == Reconciled(k, mazeRef[c, Flip(r)], posX, posY, c, Flip(r), old(maze[r, c]))
      // what may change: only sensed cells, and no sensed-empty cell under the robot
      ensures forall r, c :: InView(r, c) && maze[r, c] != old(maze[r, c]) ==>
        || mazeRef[c, Flip(r)] == k.isObstacle
        || (mazeRef[c, Flip(r)] == k.isEmpty && !InFootprint(posX, posY, c, Flip(r)))
      // sensed obstacles are red, under the robot too
      ensures forall r, c :: InView(r, c) && mazeRef[c, Flip(r)] == k.isObstacle && k.isObstacle != k.isEmpty ==>
        maze[r, c] == RED
      // sensed empty cells away from the robot are orange in the START and GOAL zones, green elsewhere
      ensures forall r, c :: InView(r, c) && mazeRef[c, Flip(r)] == k.isEmpty && !InFootprint(posX, posY, c, Flip(r)) ==>
        maze[r, c] == if InFootprint(k.startX, k.startY, c, Flip(r)) || InFootprint(k.goalX, k.goalY, c, Flip(r)) then ORANGE else GREEN
    {
      var i := 0;
      while i < MAP_LENGTH
        invariant 0 <= i <= MAP_LENGTH
        invariant forall r, c :: InView(r, c) ==>
          maze[r, c] == if c < i then Reconciled(k, mazeRef[c, Flip(r)], posX, posY, c, Flip(r), old(maze[r, c])) else old(maze[r, c])
      {
        var j := 0;
        while j < MAP_WIDTH
          invariant 0 <= j <= MAP_WIDTH
          invariant forall r, c :: InView(r, c) ==>
            maze[r, c] == if c < i || (c == i && Flip(r) < j) then Reconciled(k, mazeRef[c, Flip(r)], posX, posY, c, Flip(r), old(maze[r, c])) else old(maze[r, c])
        {
          if mazeRef[i, j] == k.isEmpty {
            if i < posX - 1 || i > posX + 1 || j < posY - 1 || j > posY + 1 {
              if (i >= k.startX - 1 && i <= k.startX + 1 && j >= k.startY - 1 && j <= k.startY + 1)
                || (i >= k.goalX - 1 && i <= k.goalX + 1 && j >= k.goalY - 1 && j <= k.goalY + 1)
              {
                maze[Flip(j), i] := ORANGE;
              } else {
                maze[Flip(j), i] := GREEN;
              }
            }
          } else if mazeRef[i, j] == k.isObstacle {
            maze[Flip(j), i] := RED;
          }
          j := j + 1;
        }
        i := i + 1;
      }
    }

    /** Moves the pink mark from the front cell for `from` to the one for `to`, turning in place. */
    method RepaintFront(from: Orientation, to: Orientation)
      requires Valid() && FootprintInside(posX, posY) && from != to
      modifies maze
      ensures forall r, c :: InView(r, c) ==> maze[r, c] == TurnPaint(posX, posY, from, to, r, c, old(maze[r, c]))
    {
      maze[Flip(posY + Forward(from).1), posX + Forward(from).0] := CYAN;
      maze[Flip(posY + Forward(to).1), posX + Forward(to).0] := PINK;
    }

    /** Turns the robot a quarter clockwise without moving it. */
    method TurnRobotRight(mazeRef: array2<int>, k: ExplorerConstants)
      requires Valid() && orientation.Some? && RefShaped(mazeRef)
      modifies this, maze
      ensures Valid()
      ensures orientation == Some(TurnedRight(old(orientation).value))
      ensures posX == old(posX) && posY == old(posY)
      ensures forall r, c :: InView(r, c) ==>
        maze[r, c] == Reconciled(k, mazeRef[c, Flip(r)], posX, posY, c, Flip(r),
                                 TurnPaint(posX, posY, old(orientation).value, orientation.value, r, c, old(maze[r, c])))
    {
      var o := orientation.value;
      RepaintFront(o, TurnedRight(o));
      orientation := Some(TurnedRight(o));
      UpdateMazeColor(mazeRef, k);
    }

    /** Turns the robot a quarter anticlockwise without moving it. */
    method TurnRobotLeft(mazeRef: array2<int>, k: ExplorerConstants)
      requires Valid() && orientation.Some? && RefShaped(mazeRef)
      modifies this, maze
      ensures Valid()
      ensures orientation == Some(TurnedLeft(old(orientation).value))
      ensures posX == old(posX) && posY == old(posY)
      ensures forall r, c :: InView(r, c) ==>
        maze[r, c] == Reconciled(k, mazeRef[c, Flip(r)], posX, posY, c, Flip(r),
                                 TurnPaint(posX, posY, old(orientation).value, orientation.value, r, c, old(maze[r, c])))
    {
      var o := orientation.value;
      RepaintFront(o, TurnedLeft(o));
      orientation := Some(TurnedLeft(o));
      UpdateMazeColor(mazeRef, k);
    }

    /**
      Moves the robot one cell in the direction it faces, drawing its new
      footprint. The new footprint must lie inside the arena.
     */
    method MoveRobotForward(mazeRef: array2<int>, k: ExplorerConstants)
      requires Valid() && orientation.Some? && RefShaped(mazeRef)
      requires FootprintInside(posX + Forward(orientation.value).0, posY + Forward(orientation.value).1)
      modifies this, maze
      ensures Valid()
      ensures orientation == old(orientation)
      ensures posX == old(posX) + Forward(orientation.value).0
      ensures posY == old(posY) + Forward(orientation.value).1
      ensures forall r, c :: InView(r, c) ==>
        maze[r, c] == Reconciled(k, mazeRef[c, Flip(r)], posX, posY, c, Flip(r),
                                 FootprintPaint(posX, posY, orientation.value, r, c, old(maze[r, c])))
      // unless the explorer has sensed an obstacle under it, the new footprint is cyan with a pink front
      ensures forall r, c :: InView(r, c) && InFootprint(posX, posY, c, Flip(r)) ==>
        maze[r, c] == if mazeRef[c, Flip(r)] != k.isEmpty && mazeRef[c, Flip(r)] == k.isObstacle then RED
                      else if IsFront(posX, posY, orientation.value, c, Flip(r)) then PINK
                      else CYAN
    {
      var o := orientation.value;
      PaintFootprint(posX + Forward(o).0, posY + Forward(o).1, o);
      posX, posY := posX + Forward(o).0, posY + Forward(o).1;
      UpdateMazeColor(mazeRef, k);
    }

    /** Marks every cell of the fastest path, given as arena cells (x, y), in yellow. */
    method MarkFastestPath(steps: seq<(int, int)>)
      requires Valid()
      requires forall i :: 0 <= i < |steps| ==> 0 <= steps[i].0 < MAP_LENGTH && 0 <= steps[i].1 < MAP_WIDTH
      modifies maze
      ensures forall r, c :: InView(r, c) ==> maze[r, c] == if (c, Flip(r)) in steps then YELLOW else old(maze[r, c])
    {
      var n := 0;
      while n < |steps|
        invariant 0 <= n <= |steps|
        invariant forall r, c :: InView(r, c) ==>
          maze[r, c] == if (c, Flip(r)) in steps[..n] then YELLOW else old(maze[r, c])
      {
        var (x, y) := steps[n];
        maze[Flip(y), x] := YELLOW;
        assert steps[..n + 1] == steps[..n] + [steps[n]];
        n := n + 1;
      }
      assert steps[..n] == steps;
    }
  }

  /** A right turn followed by a left turn leaves the pose as it was. */
  method RightThenLeftRestoresPose(ctl: Controller, mazeRef: array2<int>, k: ExplorerConstants)
    requires ctl.Valid() && ctl.orientation.Some? && RefShaped(mazeRef)
    modifies ctl, ctl.maze
    ensures ctl.Valid()
    ensures ctl.orientation == old(ctl.orientation)
    ensures ctl.posX == old(ctl.posX) && ctl.posY == old(ctl.posY)
  {
    ctl.TurnRobotRight(mazeRef, k);
    ctl.TurnRobotLeft(mazeRef, k);
    LeftUndoesRight(old(ctl.orientation).value);
  }

  /** Four left turns leave the pose as it was. */
  method FourLeftsRestorePose(ctl: Controller, mazeRef: array2<int>, k: ExplorerConstants)
    requires ctl.Valid() && ctl.orientation.Some? && RefShaped(mazeRef)
    modifies ctl, ctl.maze
    ensures ctl.Valid()
    ensures ctl.orientation == old(ctl.orientation)
    ensures ctl.posX == old(ctl.posX) && ctl.posY == old(ctl.posY)
  {
    ctl.TurnRobotLeft(mazeRef, k);
    ctl.TurnRobotLeft(mazeRef, k);
    ctl.TurnRobotLeft(mazeRef, k);
    ctl.TurnRobotLeft(mazeRef, k);
    FourTurnsRestore(old(ctl.orientation).value);
  }
}
