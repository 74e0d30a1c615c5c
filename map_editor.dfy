/**
  Editing of the obstacle layout on the map panel, and the arena descriptor
  text the controller derives from a layout: one line per arena row y, each
  holding one '0' (empty) or '1' (obstacle) per column x, then the platform's
  line separator.
 */
module MapEditor {
  import opened MazeGrid

  /** The colour a map cell takes when it is toggled: green (free) becomes red (obstacle), anything else green. */
  function Toggled(c: Color): (r: Color)
    ensures r == RED <==> c == GREEN
    ensures r == GREEN <==> c != GREEN
  {
    if c == GREEN then RED else GREEN
  }

  /** Toggling a free or obstacle cell twice restores it. */
  lemma {:induction false} ToggleTwice(c: Color)
    requires c == GREEN || c == RED
    ensures Toggled(Toggled(c)) == c
  {
  }

  /** The colour a map cell takes when the map is cleared: obstacles become free, the rest is kept. */
  function Cleared(c: Color): (r: Color)
    ensures r != RED
    ensures c != RED ==> r == c
    ensures c == RED ==> r == GREEN
  {
    if c == RED then GREEN else c
  }

  /** Clearing is idempotent. */
  lemma {:induction false} ClearIdempotent(c: Color)
    ensures Cleared(Cleared(c)) == Cleared(c)
  {
  }

  /** Flips cell (x, y) of the map between free and obstacle; no other cell changes. */
  method ToggleObstacle(mapGrids: array2<Color>, x: int, y: int)
    requires 0 <= x < mapGrids.Length0 && 0 <= y < mapGrids.Length1
    modifies mapGrids
    ensures mapGrids[x, y] == Toggled(old(mapGrids[x, y]))
    ensures forall r, c :: 0 <= r < mapGrids.Length0 && 0 <= c < mapGrids.Length1 && (r, c) != (x, y) ==>
      mapGrids[r, c] == old(mapGrids[r, c])
  {
    if mapGrids[x, y] == GREEN {
      mapGrids[x, y] := RED;
    } else {
      mapGrids[x, y] := GREEN;
    }
  }

  /** Turns every obstacle of the map's MAP_WIDTH x MAP_LENGTH cells free; every other cell is kept. */
  method ClearMap(mapGrids: array2<Color>)
    requires mapGrids.Length0 >= MAP_WIDTH && mapGrids.Length1 >= MAP_LENGTH
    modifies mapGrids
    ensures forall r, c :: 0 <= r < mapGrids.Length0 && 0 <= c < mapGrids.Length1 ==>
      mapGrids[r, c] == if InView(r, c) then Cleared(old(mapGrids[r, c])) else old(mapGrids[r, c])
  {
    var x := 0;
    while x < MAP_WIDTH
      invariant 0 <= x <= MAP_WIDTH
      invariant forall r, c :: 0 <= r < mapGrids.Length0 && 0 <= c < mapGrids.Length1 ==>
        mapGrids[r, c] == if InView(r, c) && r < x then Cleared(old(mapGrids[r, c])) else old(mapGrids[r, c])
    {
      var y := 0;
      while y < MAP_LENGTH
        invariant 0 <= y <= MAP_LENGTH
        invariant forall r, c :: 0 <= r < mapGrids.Length0 && 0 <= c < mapGrids.Length1 ==>
          mapGrids[r, c] == if InView(r, c) && (r < x || (r == x && c < y)) then Cleared(old(mapGrids[r, c])) else old(mapGrids[r, c])
      {
        if mapGrids[x, y] == RED {
          mapGrids[x, y] := GREEN;
        }
        y := y + 1;
      }
      x := x + 1;
    }
  }

  /** The descriptor character of one cell. */
  function Bit(obstacle: bool): char {
    if obstacle then '1' else '0'
  }

  /** Where line y of a descriptor starts, each line being MAP_LENGTH cells and a separator of length sepLength. */
  function LineStart(y: nat, sepLength: nat): nat {
    y * (MAP_LENGTH + sepLength)
  }

  /** Every line before line m ends, separator included, no later than line m starts. */
  lemma {:induction false} LineStartBound(y: nat, m: nat, sepLength: nat)
    requires y < m
    ensures LineStart(y, sepLength) + MAP_LENGTH + sepLength <= LineStart(m, sepLength)
  {
    if y < m - 1 {
      LineStartBound(y, m - 1, sepLength);
    }
    assert LineStart(m, sepLength) == LineStart(m - 1, sepLength) + MAP_LENGTH + sepLength;
  }

  /** Line y of descriptor d, its separator included. */
  function LineOf(d: string, y: nat, sepLength: nat): (line: string)
    requires LineStart(y, sepLength) + MAP_LENGTH + sepLength <= |d|
    ensures |line| == MAP_LENGTH + sepLength
  {
    d[LineStart(y, sepLength) .. LineStart(y, sepLength) + MAP_LENGTH + sepLength]
  }

  /** The first n cell characters of line y of the descriptor of layout. */
  function Line(layout: array2<bool>, y: nat, n: nat): string
    reads layout
    requires y < layout.Length1 && n <= layout.Length0
  {
    if n == 0 then "" else Line(layout, y, n - 1) + [Bit(layout[n - 1, y])]
  }

  /** The first m lines of the descriptor of layout, each followed by sep. */
  function Lines(layout: array2<bool>, sep: string, m: nat): string
    reads layout
    requires m <= layout.Length1 && MAP_LENGTH <= layout.Length0
  {
    if m == 0 then "" else Lines(layout, sep, m - 1) + Line(layout, m - 1, MAP_LENGTH) + sep
  }

  /** Cell x of a line is '1' exactly when layout[x][y] is an obstacle. */
  lemma {:induction false} LineCells(layout: array2<bool>, y: nat, n: nat)
    requires y < layout.Length1 && n <= layout.Length0
    ensures |Line(layout, y, n)| == n
    ensures forall x :: 0 <= x < n ==> Line(layout, y, n)[x] == Bit(layout[x, y])
  {
    if n > 0 {
      LineCells(layout, y, n - 1);
    }
  }

  /** The first m lines of a descriptor split, at multiples of the line length, into its lines. */
  lemma {:induction false} LinesSplit(layout: array2<bool>, sep: string, m: nat)
    requires m <= layout.Length1 && MAP_LENGTH <= layout.Length0
    ensures |Lines(layout, sep, m)| == LineStart(m, |sep|)
    ensures forall y :: 0 <= y < m ==>
      && LineStart(y, |sep|) + MAP_LENGTH + |sep| <= |Lines(layout, sep, m)|
      && LineOf(Lines(layout, sep, m), y, |sep|) == Line(layout, y, MAP_LENGTH) + sep
  {
    if m > 0 {
      var prefix := Lines(layout, sep, m - 1);
      var whole := Lines(layout, sep, m);
      LinesSplit(layout, sep, m - 1);
      LineCells(layout, m - 1, MAP_LENGTH);
      assert whole == prefix + (Line(layout, m - 1, MAP_LENGTH) + sep);
      assert |whole| == LineStart(m, |sep|);
      forall y | 0 <= y < m
        ensures LineStart(y, |sep|) + MAP_LENGTH + |sep| <= |whole|
        ensures LineOf(whole, y, |sep|) == Line(layout, y, MAP_LENGTH) + sep
      {
        LineStartBound(y, m, |sep|);
        if y < m - 1 {
          LineStartBound(y, m - 1, |sep|);
          assert LineOf(whole, y, |sep|) == LineOf(prefix, y, |sep|);
        } else {
          assert LineStart(y, |sep|) == |prefix|;
        }
      }
    }
  }

  /**
    Writes a layout, indexed [x][y], as an arena descriptor: MAP_WIDTH lines of
    MAP_LENGTH cells and a separator each, cell x of line y being '1' exactly
    when layout[x][y] is an obstacle.
   */
  method BuildArenaDescriptor(layout: array2<bool>, sep: string) returns (d: string)
    requires layout.Length0 >= MAP_LENGTH && layout.Length1 >= MAP_WIDTH
    ensures |d| == MAP_WIDTH * (MAP_LENGTH + |sep|)
    ensures forall y :: 0 <= y < MAP_WIDTH ==>
      LineStart(y, |sep|) + MAP_LENGTH + |sep| <= |d| && LineOf(d, y, |sep|)[MAP_LENGTH..] == sep
    ensures forall y, x :: 0 <= y < MAP_WIDTH && 0 <= x < MAP_LENGTH ==>
      LineStart(y, |sep|) + MAP_LENGTH + |sep| <= |d| && LineOf(d, y, |sep|)[x] == Bit(layout[x, y])
  {
    d := "";
    var i := 0;
    while i < MAP_WIDTH
      invariant 0 <= i <= MAP_WIDTH
      invariant d == Lines(layout, sep, i)
    {
      var j := 0;
      while j < MAP_LENGTH
        invariant 0 <= j <= MAP_LENGTH
        invariant d == Lines(layout, sep, i) + Line(layout, i, j)
      {
        if layout[j, i] {
          d := d + "1";
        } else {
          d := d + "0";
        }
        j := j + 1;
      }
      d := d + sep;
      i := i + 1;
    }
    LinesSplit(layout, sep, MAP_WIDTH);
    forall y | 0 <= y < MAP_WIDTH
      ensures LineOf(d, y, |sep|)[MAP_LENGTH..] == sep
      ensures forall x :: 0 <= x < MAP_LENGTH ==> LineOf(d, y, |sep|)[x] == Bit(layout[x, y])
    {
      LineCells(layout, y, MAP_LENGTH);
      assert LineOf(d, y, |sep|) == Line(layout, y, MAP_LENGTH) + sep;
    }
  }
}
