/**
 * The Rain pattern (`rainStep` of contribution-calendar.tsx). The source's two
 * random choices per column, spawning a drop in row 0 and clearing the bottom
 * row, are the parameters `spawn` and `clear`.
 */
module Rain {
  import opened GridBuffer

  predicate Choices(spawn: seq<bool>, clear: seq<bool>)
  {
    |spawn| == Cols && |clear| == Cols
  }

  /** The buffer after the spawn loop: a 1 in row 0 of every column the spawn choice picks. */
  function Spawned(g: Grid, spawn: seq<bool>, r: int, c: int): int
    requires Shaped(g) && |spawn| == Cols && 0 <= r < Rows && 0 <= c < Cols
  {
    if r == 0 && spawn[c] then 1 else g[r][c]
  }

  /** The next value of one cell, read against the pre-step grid: the bottom row of a
      cleared column is 0; a 1 directly above arrives; an old 1 above the bottom row
      leaves; row 0 of a spawn column gets a new drop; anything else keeps its value. */
  function RainCell(g: Grid, spawn: seq<bool>, clear: seq<bool>, r: int, c: int): int
    requires Shaped(g) && Choices(spawn, clear) && 0 <= r < Rows && 0 <= c < Cols
  {
    if r == Rows - 1 && clear[c] then 0
    else if 1 <= r && g[r - 1][c] == 1 then 1
    else if r < Rows - 1 && g[r][c] == 1 then 0
    else Spawned(g, spawn, r, c)
  }

  /** One Rain step over the whole grid. */
  function RainNext(g: Grid, spawn: seq<bool>, clear: seq<bool>): (next: Grid)
    requires Shaped(g) && Choices(spawn, clear)
    ensures Shaped(next)
    // a drop moves down one row (unless it lands on a cleared bottom cell)
    ensures forall r, c ::
      1 <= r < Rows && 0 <= c < Cols && g[r - 1][c] == 1 && !(r == Rows - 1 && clear[c])
      ==> next[r][c] == 1
    // an old drop above the bottom row leaves its cell unless another arrives from above
    ensures forall r, c ::
      0 <= r < Rows - 1 && 0 <= c < Cols && g[r][c] == 1 && (r == 0 || g[r - 1][c] != 1)
      ==> next[r][c] == 0
    // a cell that holds no drop and receives none keeps its value, apart from spawning and clearing
    ensures forall r, c ::
      0 <= r < Rows && 0 <= c < Cols && g[r][c] != 1 && (r == 0 || g[r - 1][c] != 1)
      && !(r == 0 && spawn[c]) && !(r == Rows - 1 && clear[c])
      ==> next[r][c] == g[r][c]
    // the bottom row is zeroed exactly in the columns the clear choice picks, and elsewhere only by a departure
    ensures forall c :: 0 <= c < Cols && clear[c] ==> next[Rows - 1][c] == 0
    ensures forall c :: 0 <= c < Cols && !clear[c] ==>
      next[Rows - 1][c] == if g[Rows - 2][c] == 1 then 1 else g[Rows - 1][c]
    // a spawn puts a new drop in row 0 of its column unless an old drop there leaves it
    ensures forall c :: 0 <= c < Cols && spawn[c] && g[0][c] != 1 ==> next[0][c] == 1
  {
    seq(Rows, r requires 0 <= r < Rows => seq(Cols, c requires 0 <= c < Cols => RainCell(g, spawn, clear, r, c)))
  }

  /** Whether the move loop has handled (k, c) once it has reached (row, col): it runs
      rows from the bottom up and, within a row, columns left to right. */
  predicate Done(row: int, col: int, k: int, c: int)
  {
    k > row || (k == row && c < col)
  }

  /** The buffer while the move loop is at (row, col): a handled (r, c) received a drop
      from above; a handled (r + 1, c) took the drop away from (r, c). */
  function Moving(g: Grid, spawn: seq<bool>, row: int, col: int, r: int, c: int): int
    requires Shaped(g) && |spawn| == Cols && 0 <= r < Rows && 0 <= c < Cols
  {
    if Done(row, col, r, c) && 1 <= r && g[r - 1][c] == 1 then 1
    else if r + 1 < Rows && Done(row, col, r + 1, c) && g[r][c] == 1 then 0
    else Spawned(g, spawn, r, c)
  }

  /** `rainStep`: copy the grid, spawn drops in row 0, move every drop of the old grid
      down one row scanning from the bottom row up, then clear bottom cells. */
  method RainStep(currentGrid: Grid, spawn: seq<bool>, clear: seq<bool>) returns (newGrid: Grid)
    requires Shaped(currentGrid) && Choices(spawn, clear)
    ensures newGrid == RainNext(currentGrid, spawn, clear)
  {
    newGrid := currentGrid;
    var col := 0;
    while col < Cols
      invariant 0 <= col <= Cols && Shaped(newGrid)
      invariant forall r, c :: 0 <= r < Rows && 0 <= c < Cols ==>
        newGrid[r][c] == if c < col then Spawned(currentGrid, spawn, r, c) else currentGrid[r][c]
    {
      if spawn[col] {
        newGrid := Set(newGrid, 0, col, 1);
      }
      col := col + 1;
    }
    var row := Rows - 1;
    while row > 0
      invariant 0 <= row <= Rows - 1 && Shaped(newGrid)
      invariant forall r, c :: 0 <= r < Rows && 0 <= c < Cols ==>
        newGrid[r][c] == Moving(currentGrid, spawn, row, 0, r, c)
    {
      col := 0;
      while col < Cols
        invariant 0 <= col <= Cols && Shaped(newGrid)
        invariant forall r, c :: 0 <= r < Rows && 0 <= c < Cols ==>
          newGrid[r][c] == Moving(currentGrid, spawn, row, col, r, c)
      {
        if currentGrid[row - 1][col] == 1 {
          newGrid := Set(newGrid, row, col, 1);
          newGrid := Set(newGrid, row - 1, col, 0);
        }
        col := col + 1;
      }
      row := row - 1;
    }
    col := 0;
    while col < Cols
      invariant 0 <= col <= Cols && Shaped(newGrid)
      invariant forall r, c :: 0 <= r < Rows && 0 <= c < Cols ==>
        newGrid[r][c] == if r == Rows - 1 && c < col && clear[c] then 0 else Moving(currentGrid, spawn, 0, 0, r, c)
    {
      if clear[col] {
        newGrid := Set(newGrid, Rows - 1, col, 0);
      }
      col := col + 1;
    }
    forall r, c | 0 <= r < Rows && 0 <= c < Cols
      ensures newGrid[r][c] == RainNext(currentGrid, spawn, clear)[r][c]
    {
      assert Done(0, 0, r, c) <==> 1 <= r;
      assert r + 1 < Rows ==> Done(0, 0, r + 1, c);
      assert newGrid[r][c] == if r == Rows - 1 && clear[c] then 0 else Moving(currentGrid, spawn, 0, 0, r, c);
      assert RainNext(currentGrid, spawn, clear)[r][c] == RainCell(currentGrid, spawn, clear, r, c);
    }
    CellwiseEqual(newGrid, RainNext(currentGrid, spawn, clear));
  }

  /** Column c holds a single drop, at row r, and nothing else. */
  predicate SingleDrop(g: Grid, c: int, r: int)
    requires Shaped(g) && 0 <= c < Cols
  {
    forall i :: 0 <= i < Rows ==> g[i][c] == (if i == r then 1 else 0)
  }

  /** Steps with the given per-step choices. */
  function RainRun(g: Grid, spawns: seq<seq<bool>>, clears: seq<seq<bool>>): (h: Grid)
    requires Shaped(g) && |spawns| == |clears|
    requires forall k :: 0 <= k < |spawns| ==> Choices(spawns[k], clears[k])
    ensures Shaped(h)
    decreases |spawns|
  {
    if spawns == [] then g
    else RainRun(RainNext(g, spawns[0], clears[0]), spawns[1..], clears[1..])
  }

  /** A lone drop moves down exactly one row per step, never skipping a row,
      while no new drop spawns in its column and its column is not cleared. */
  lemma {:induction false} DropFallsOneRowPerStep(g: Grid, spawns: seq<seq<bool>>, clears: seq<seq<bool>>, c: int, r: int)
    requires Shaped(g) && |spawns| == |clears|
    requires forall k :: 0 <= k < |spawns| ==> Choices(spawns[k], clears[k])
    requires 0 <= c < Cols && 0 <= r && r + |spawns| < Rows && SingleDrop(g, c, r)
    requires forall k :: 0 <= k < |spawns| ==> c < |spawns[k]| && !spawns[k][c] && c < |clears[k]| && !clears[k][c]
    ensures SingleDrop(RainRun(g, spawns, clears), c, r + |spawns|)
    decreases |spawns|
  {
    if spawns != [] {
      var next := RainNext(g, spawns[0], clears[0]);
      assert SingleDrop(next, c, r + 1);
      DropFallsOneRowPerStep(next, spawns[1..], clears[1..], c, r + 1);
    }
  }
}
