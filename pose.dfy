/**
  The robot's pose on the arena: an orientation, the forward vector it
  selects, and the 3x3 footprint centred on the robot's position together
  with the front cell that the view marks in pink.
 */
module Pose {
  import opened MazeGrid

  datatype Orientation = NORTH | EAST | SOUTH | WEST

  /** The orientation after a quarter turn clockwise: the forward vector (x, y) becomes (y, -x). */
  function TurnedRight(o: Orientation): (r: Orientation)
    ensures r != o
    ensures Forward(r) == (Forward(o).1, -Forward(o).0)
  {
    match o
    case NORTH => EAST
    case EAST => SOUTH
    case SOUTH => WEST
    case WEST => NORTH
  }

  /**
    The orientation after a quarter turn anticlockwise: the inverse of a right
    turn, the forward vector (x, y) becoming (-y, x).
   */
  function TurnedLeft(o: Orientation): (r: Orientation)
    ensures TurnedRight(r) == o
    ensures Forward(r) == (-Forward(o).1, Forward(o).0)
  {
    match o
    case NORTH => WEST
    case WEST => SOUTH
    case SOUTH => EAST
    case EAST => NORTH
  }

  /** A left turn undoes a right turn. */
  lemma {:induction false} LeftUndoesRight(o: Orientation)
    ensures TurnedLeft(TurnedRight(o)) == o
  {
  }

  /** The unit step the robot makes when it moves forward: north is +y, east is +x. */
  function Forward(o: Orientation): (d: (int, int))
    ensures (d.0 == 0) != (d.1 == 0)
    ensures -1 <= d.0 <= 1 && -1 <= d.1 <= 1
  {
    match o
    case NORTH => (0, 1)
    case EAST => (1, 0)
    case SOUTH => (0, -1)
    case WEST => (-1, 0)
  }

  /** Four quarter turns in the same direction restore the orientation. */
  lemma {:induction false} FourTurnsRestore(o: Orientation)
    ensures TurnedRight(TurnedRight(TurnedRight(TurnedRight(o)))) == o
    ensures TurnedLeft(TurnedLeft(TurnedLeft(TurnedLeft(o)))) == o
  {
  }

  /** The 3x3 footprint around (px, py) lies inside the arena. */
  predicate FootprintInside(px: int, py: int) {
    1 <= px <= MAP_LENGTH - 2 && 1 <= py <= MAP_WIDTH - 2
  }

  /** Arena cell (x, y) belongs to the 3x3 footprint around (px, py). */
  predicate InFootprint(px: int, py: int, x: int, y: int) {
    px - 1 <= x <= px + 1 && py - 1 <= y <= py + 1
  }

  /** Arena cell (x, y) is the footprint cell the robot at (px, py) faces. */
  predicate IsFront(px: int, py: int, o: Orientation, x: int, y: int) {
    x == px + Forward(o).0 && y == py + Forward(o).1
  }

  /** The front cell is one of the footprint's edge cells, never its centre. */
  lemma {:induction false} FrontInFootprint(px: int, py: int, o: Orientation)
    ensures InFootprint(px, py, px + Forward(o).0, py + Forward(o).1)
    ensures !IsFront(px, py, o, px, py)
  {
  }

  /**
    The colour of view cell (row, col) once the footprint of a robot at
    (px, py) facing o has been drawn over a cell that was `prior`: the front
    cell pink, the rest of the footprint cyan, everything else untouched.
   */
  function FootprintPaint(px: int, py: int, o: Orientation, row: int, col: int, prior: Color): Color {
    if InFootprint(px, py, col, Flip(row)) then
      (if IsFront(px, py, o, col, Flip(row)) then PINK else CYAN)
    else prior
  }

  /**
    The colour of view cell (row, col) once a robot at (px, py) has turned
    from `from` to `to`: the old front cell cyan, the new one pink.
   */
  function TurnPaint(px: int, py: int, from: Orientation, to: Orientation, row: int, col: int, prior: Color): Color {
    if IsFront(px, py, to, col, Flip(row)) then PINK
    else if IsFront(px, py, from, col, Flip(row)) then CYAN
    else prior
  }
}
