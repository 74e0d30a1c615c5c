/**
  Exploration coverage: the number of maze cells the view no longer shows as
  unexplored (black), and the percentage of the arena they make up.
 */
module Coverage {
  import opened MazeGrid

  /** The number of non-black cells among the first `cols` cells of view row `row`. */
  function ExploredInRow(maze: array2<Color>, row: nat, cols: nat): (n: nat)
    reads maze
    requires row < maze.Length0 && cols <= maze.Length1
  {
    if cols == 0 then 0
    else ExploredInRow(maze, row, cols - 1) + (if maze[row, cols - 1] != BLACK then 1 else 0)
  }

  /** The number of non-black cells in the first `rows` full rows of the view. */
  function Explored(maze: array2<Color>, rows: nat): (n: nat)
    reads maze
    requires rows <= maze.Length0 && MAP_LENGTH <= maze.Length1
  {
    if rows == 0 then 0
    else Explored(maze, rows - 1) + ExploredInRow(maze, rows - 1, MAP_LENGTH)
  }

  /** A row holds at most `cols` explored cells, and exactly that many only when none of them is black. */
  lemma {:induction false} ExploredInRowBound(maze: array2<Color>, row: nat, cols: nat)
    requires row < maze.Length0 && cols <= maze.Length1
    ensures ExploredInRow(maze, row, cols) <= cols
    ensures ExploredInRow(maze, row, cols) == cols <==> forall c :: 0 <= c < cols ==> maze[row, c] != BLACK
  {
    if cols > 0 {
      ExploredInRowBound(maze, row, cols - 1);
    }
  }

  /** The first `rows` rows hold at most rows * MAP_LENGTH explored cells, and exactly that many only when none is black. */
  lemma {:induction false} ExploredBound(maze: array2<Color>, rows: nat)
    requires rows <= maze.Length0 && MAP_LENGTH <= maze.Length1
    ensures Explored(maze, rows) <= rows * MAP_LENGTH
    ensures Explored(maze, rows) == rows * MAP_LENGTH <==>
      forall r, c :: 0 <= r < rows && 0 <= c < MAP_LENGTH ==> maze[r, c] != BLACK
  {
    if rows > 0 {
      ExploredBound(maze, rows - 1);
      ExploredInRowBound(maze, rows - 1, MAP_LENGTH);
    }
  }

  /**
    Counts the non-black cells of the view, row by row: one pass of the
    coverage sampler.
   */
  method CountExplored(maze: array2<Color>) returns (numExplored: nat)
    requires maze.Length0 >= MAP_WIDTH && maze.Length1 >= MAP_LENGTH
    ensures numExplored == Explored(maze, MAP_WIDTH)
    ensures numExplored <= MAP_WIDTH * MAP_LENGTH
    ensures numExplored == MAP_WIDTH * MAP_LENGTH <==> forall r, c :: InView(r, c) ==> maze[r, c] != BLACK
  {
    numExplored := 0;
    var x := 0;
    while x < MAP_WIDTH
      invariant 0 <= x <= MAP_WIDTH
      invariant numExplored == Explored(maze, x)
    {
      var y := 0;
      while y < MAP_LENGTH
        invariant 0 <= y <= MAP_LENGTH
        invariant numExplored == Explored(maze, x) + ExploredInRow(maze, x, y)
      {
        if maze[x, y] != BLACK {
          numExplored := numExplored + 1;
        }
        y := y + 1;
      }
      x := x + 1;
    }
    ExploredBound(maze, MAP_WIDTH);
  }

  /**
    The coverage percentage of a count of explored cells: never negative, at
    most 100 for a count the view can hold, and 100 exactly when every cell of
    the arena is explored.
   */
  function Percentage(numExplored: nat): (p: real)
    ensures 0.0 <= p
    ensures numExplored <= MAP_WIDTH * MAP_LENGTH ==> p <= 100.0
    ensures p == 100.0 <==> numExplored == MAP_WIDTH * MAP_LENGTH
  {
    (100 * numExplored) as real / (MAP_LENGTH * MAP_WIDTH) as real
  }
}
