/**
  Geometry of the simulator's maze view.

  The view is a grid of buttons indexed [row][col] with MAP_WIDTH rows and
  MAP_LENGTH columns. A cell (x, y) of the arena, x being the column and y
  counted upwards from the bottom row, is drawn at row MAP_WIDTH - 1 - y and
  column x.
 */
module MazeGrid {

  /** The background colours the controller paints on the view. */
  datatype Color = BLACK | ORANGE | CYAN | PINK | GREEN | RED | YELLOW

  /** Number of rows of the view, that is the extent of the arena along y. */
  const MAP_WIDTH: int := 20
  /** Number of columns of the view, that is the extent of the arena along x. */
  const MAP_LENGTH: int := 15

  /** A cell that exists in the view. */
  predicate InView(row: int, col: int) {
    0 <= row < MAP_WIDTH && 0 <= col < MAP_LENGTH
  }

  /** The view row of arena row y, and the arena row of a view row (the map is its own inverse). */
  function Flip(v: int): int {
    MAP_WIDTH - 1 - v
  }

  /** The colour of a cell of a freshly blanked maze: two orange 3x3 safe corners, black elsewhere. */
  function BlankColor(row: int, col: int): Color {
    if (0 <= row <= 2 && 12 <= col <= 14) || (0 <= col <= 2 && 17 <= row <= 19) then ORANGE else BLACK
  }
}
