/**
 * Conway's Game of Life (B3/S23) on the fixed grid, without wraparound:
 * `countNeighbors` and `gameOfLifeStep` of contribution-calendar.tsx.
 */
module Life {
  import opened GridBuffer

  /** The eight neighbour offsets, in the order the source visits them. */
  const Directions: seq<(int, int)> :=
    [(-1, -1), (-1, 0), (-1, 1), (0, -1), (0, 1), (1, -1), (1, 0), (1, 1)]

  function SumAt(g: Grid, r: int, c: int, ds: seq<(int, int)>): int
    requires Shaped(g)
  {
    if ds == [] then 0 else At(g, r + ds[0].0, c + ds[0].1) + SumAt(g, r, c, ds[1..])
  }

  /** The sum of the raw values of the in-range neighbours of (r, c). */
  function NeighborSum(g: Grid, r: int, c: int): int
    requires Shaped(g)
  {
    SumAt(g, r, c, Directions)
  }

  /** The neighbour sum is the sum over the 3 x 3 window around (r, c), less the centre,
      where positions off the grid count 0. */
  lemma NeighborSumUnfolded(g: Grid, r: int, c: int)
    requires Shaped(g)
    ensures NeighborSum(g, r, c)
         == At(g, r - 1, c - 1) + At(g, r - 1, c) + At(g, r - 1, c + 1)
          + At(g, r, c - 1) + At(g, r, c + 1)
          + At(g, r + 1, c - 1) + At(g, r + 1, c) + At(g, r + 1, c + 1)
  {
    var ds := Directions;
    SumAtSplit(g, r, c, ds, 0);
    SumAtSplit(g, r, c, ds, 1);
    SumAtSplit(g, r, c, ds, 2);
    SumAtSplit(g, r, c, ds, 3);
    SumAtSplit(g, r, c, ds, 4);
    SumAtSplit(g, r, c, ds, 5);
    SumAtSplit(g, r, c, ds, 6);
    SumAtSplit(g, r, c, ds, 7);
    assert ds[8..] == [];
  }

  lemma SumAtSplit(g: Grid, r: int, c: int, ds: seq<(int, int)>, i: nat)
    requires Shaped(g) && i < |ds|
    ensures SumAt(g, r, c, ds[i..]) == At(g, r + ds[i].0, c + ds[i].1) + SumAt(g, r, c, ds[i + 1..])
  {
    assert ds[i..][1..] == ds[i + 1..];
  }

  /** No wraparound: the count at (r, c) depends only on the in-range cells next to it. */
  lemma NeighborSumLocal(g: Grid, h: Grid, r: int, c: int)
    requires Shaped(g) && Shaped(h)
    requires forall i, j ::
      0 <= i < Rows && 0 <= j < Cols && r - 1 <= i <= r + 1 && c - 1 <= j <= c + 1 && (i != r || j != c)
      ==> g[i][j] == h[i][j]
    ensures NeighborSum(g, r, c) == NeighborSum(h, r, c)
  {
    NeighborSumUnfolded(g, r, c);
    NeighborSumUnfolded(h, r, c);
  }

  /** The corner cell (0, 0) has exactly three neighbours; nothing wraps in from row 6 or column 51. */
  lemma CornerNeighbors(g: Grid)
    requires Shaped(g)
    ensures NeighborSum(g, 0, 0) == g[0][1] + g[1][0] + g[1][1]
  {
    NeighborSumUnfolded(g, 0, 0);
  }

  /** `countNeighbors`: accumulates the in-range neighbour values over the eight directions. */
  method CountNeighbors(g: Grid, row: int, col: int) returns (count: int)
    requires Shaped(g)
    ensures count == NeighborSum(g, row, col)
  {
    count := 0;
    var i := 0;
    while i < |Directions|
      invariant 0 <= i <= |Directions|
      invariant count + SumAt(g, row, col, Directions[i..]) == NeighborSum(g, row, col)
    {
      var (dr, dc) := Directions[i];
      var newRow, newCol := row + dr, col + dc;
      if 0 <= newRow < Rows && 0 <= newCol < Cols {
        count := count + g[newRow][newCol];
      }
      assert Directions[i..][1..] == Directions[i + 1..];
      i := i + 1;
    }
  }

  /** The next value of one cell: a cell holding exactly 1 survives on 2 or 3
      neighbours; any other cell becomes 1 on exactly 3; everything else is 0. */
  function LifeCell(g: Grid, r: int, c: int): int
    requires Shaped(g) && 0 <= r < Rows && 0 <= c < Cols
  {
    var neighbors := NeighborSum(g, r, c);
    if g[r][c] == 1 then (if neighbors == 2 || neighbors == 3 then 1 else 0)
    else (if neighbors == 3 then 1 else 0)
  }

  /** The whole next generation, computed from the old grid only. */
  function LifeNext(g: Grid): (next: Grid)
    requires Shaped(g)
    ensures Shaped(next) && Binary(next)
    ensures forall r, c :: 0 <= r < Rows && 0 <= c < Cols ==>
      (next[r][c] == 1 <==>
         (g[r][c] == 1 && 2 <= NeighborSum(g, r, c) <= 3) || (g[r][c] != 1 && NeighborSum(g, r, c) == 3))
  {
    seq(Rows, r requires 0 <= r < Rows => seq(Cols, c requires 0 <= c < Cols => LifeCell(g, r, c)))
  }

  /** `gameOfLifeStep`: fills a fresh buffer cell by cell and reports whether any cell changed. */
  method LifeStep(currentGrid: Grid) returns (newGrid: Grid, hasChanged: bool)
    requires Shaped(currentGrid)
    ensures newGrid == LifeNext(currentGrid)
    ensures hasChanged <==> newGrid != currentGrid
  {
    newGrid := Empty();
    hasChanged := false;
    var row := 0;
    while row < Rows
      invariant 0 <= row <= Rows && Shaped(newGrid)
      invariant forall r, c :: 0 <= r < Rows && 0 <= c < Cols ==>
        newGrid[r][c] == if r < row then LifeCell(currentGrid, r, c) else 0
      invariant hasChanged <==>
        exists r, c :: 0 <= r < row && 0 <= c < Cols && LifeCell(currentGrid, r, c) != currentGrid[r][c]
    {
      var col := 0;
      while col < Cols
        invariant 0 <= col <= Cols && Shaped(newGrid)
        invariant forall r, c :: 0 <= r < Rows && 0 <= c < Cols ==>
          newGrid[r][c] == if r < row || (r == row && c < col) then LifeCell(currentGrid, r, c) else 0
        invariant hasChanged <==>
          exists r, c :: 0 <= r < Rows && 0 <= c < Cols && (r < row || (r == row && c < col))
                         && LifeCell(currentGrid, r, c) != currentGrid[r][c]
      {
        var neighbors := CountNeighbors(currentGrid, row, col);
        var currentCell := currentGrid[row][col];
        var next := if currentCell == 1 then (if neighbors == 2 || neighbors == 3 then 1 else 0)
                    else (if neighbors == 3 then 1 else 0);
        newGrid := Set(newGrid, row, col, next);
        if next != currentCell {
          hasChanged := true;
        }
        col := col + 1;
      }
      row := row + 1;
    }
    CellwiseEqual(newGrid, LifeNext(currentGrid));
    if !hasChanged {
      CellwiseEqual(newGrid, currentGrid);
    }
  }

  /** A 2 x 2 block of ones at (r0, c0) on an otherwise empty grid. */
  function Block(r0: int, c0: int): (g: Grid)
    ensures Shaped(g)
  {
    seq(Rows, r => seq(Cols, c => if r0 <= r <= r0 + 1 && c0 <= c <= c0 + 1 then 1 else 0))
  }

  /** The block is a still life: the next generation is identical, so the step reports no change. */
  lemma BlockIsStill(r0: int, c0: int)
    requires 0 <= r0 < Rows - 1 && 0 <= c0 < Cols - 1
    ensures LifeNext(Block(r0, c0)) == Block(r0, c0)
  {
    var g := Block(r0, c0);
    forall r, c | 0 <= r < Rows && 0 <= c < Cols
      ensures LifeNext(g)[r][c] == g[r][c]
    {
      BlockCellStill(r0, c0, r, c);
    }
    CellwiseEqual(LifeNext(g), g);
  }

  lemma BlockAt(r0: int, c0: int, i: int, j: int)
    ensures At(Block(r0, c0), i, j)
         == if 0 <= i < Rows && 0 <= j < Cols && r0 <= i <= r0 + 1 && c0 <= j <= c0 + 1 then 1 else 0
  {
  }

  lemma BlockCellStill(r0: int, c0: int, r: int, c: int)
    requires 0 <= r0 < Rows - 1 && 0 <= c0 < Cols - 1
    requires 0 <= r < Rows && 0 <= c < Cols
    ensures LifeCell(Block(r0, c0), r, c) == Block(r0, c0)[r][c]
  {
    var g := Block(r0, c0);
    NeighborSumUnfolded(g, r, c);
    BlockAt(r0, c0, r - 1, c - 1);
    BlockAt(r0, c0, r - 1, c);
    BlockAt(r0, c0, r - 1, c + 1);
    BlockAt(r0, c0, r, c - 1);
    BlockAt(r0, c0, r, c + 1);
    BlockAt(r0, c0, r + 1, c - 1);
    BlockAt(r0, c0, r + 1, c);
    BlockAt(r0, c0, r + 1, c + 1);
    var n := NeighborSum(g, r, c);
    if r0 <= r <= r0 + 1 && c0 <= c <= c0 + 1 {
      assert n == 3;
    } else {
      assert n <= 2;
    }
  }

  /** A live cell whose in-range neighbours are all 0 dies. */
  lemma LoneCellDies(g: Grid, r: int, c: int)
    requires Shaped(g) && 0 <= r < Rows && 0 <= c < Cols && g[r][c] == 1
    requires forall i, j ::
      0 <= i < Rows && 0 <= j < Cols && r - 1 <= i <= r + 1 && c - 1 <= j <= c + 1 && (i != r || j != c)
      ==> g[i][j] == 0
    ensures LifeNext(g)[r][c] == 0
  {
    NeighborSumUnfolded(g, r, c);
  }

  /** A stable grid stays stable: once a step changes nothing, every later step changes nothing. */
  lemma {:induction false} StableStaysStable(g: Grid, n: nat)
    requires Shaped(g) && LifeNext(g) == g
    ensures Iterate(g, n) == g
  {
    if n > 0 {
      StableStaysStable(g, n - 1);
    }
  }

  /** n generations of Life. */
  function Iterate(g: Grid, n: nat): (h: Grid)
    requires Shaped(g)
    ensures Shaped(h)
  {
    if n == 0 then g else LifeNext(Iterate(g, n - 1))
  }
}
