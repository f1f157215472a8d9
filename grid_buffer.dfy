/**
 * The fixed 7 x 52 grid shared by the pattern engine and the calendar
 * ingestion: seven rows (Sunday to Saturday) and fifty-two columns (weeks).
 */
module GridBuffer {

  const Rows: nat := 7
  const Cols: nat := 52

  /** A grid is a sequence of rows; cell (r, c) is g[r][c]. */
  type Grid = seq<seq<int>>

  /** The grid has exactly Rows rows of exactly Cols cells each. */
  predicate Shaped(g: Grid)
  {
    |g| == Rows && forall r :: 0 <= r < Rows ==> |g[r]| == Cols
  }

  /** Every cell holds 0 or 1. */
  predicate Binary(g: Grid)
    requires Shaped(g)
  {
    forall r, c :: 0 <= r < Rows && 0 <= c < Cols ==> g[r][c] == 0 || g[r][c] == 1
  }

  /** Some cell holds exactly 1. */
  predicate HasLive(g: Grid)
    requires Shaped(g)
  {
    exists r, c :: 0 <= r < Rows && 0 <= c < Cols && g[r][c] == 1
  }

  /** The all-zero grid. */
  function Empty(): (g: Grid)
    ensures Shaped(g)
    ensures forall r, c :: 0 <= r < Rows && 0 <= c < Cols ==> g[r][c] == 0
  {
    seq(Rows, _ => seq(Cols, _ => 0))
  }

  /** The value at (r, c), or 0 for a position outside the grid (no wraparound). */
  function At(g: Grid, r: int, c: int): int
    requires Shaped(g)
  {
    if 0 <= r < Rows && 0 <= c < Cols then g[r][c] else 0
  }

  /** The grid with cell (r, c) replaced by v. */
  function Set(g: Grid, r: int, c: int, v: int): (h: Grid)
    requires Shaped(g) && 0 <= r < Rows && 0 <= c < Cols
    ensures Shaped(h) && h[r][c] == v
    ensures forall i, j :: 0 <= i < Rows && 0 <= j < Cols && (i != r || j != c) ==> h[i][j] == g[i][j]
  {
    g[r := g[r][c := v]]
  }

  /** Two shaped grids that agree on every cell are equal. */
  lemma CellwiseEqual(a: Grid, b: Grid)
    requires Shaped(a) && Shaped(b)
    requires forall r, c :: 0 <= r < Rows && 0 <= c < Cols ==> a[r][c] == b[r][c]
    ensures a == b
  {
    forall r | 0 <= r < Rows
      ensures a[r] == b[r]
    {
      assert forall c :: 0 <= c < Cols ==> a[r][c] == b[r][c];
    }
  }

  function RowSum(row: seq<int>): int
  {
    if row == [] then 0 else row[0] + RowSum(row[1..])
  }

  /** The sum of all cells of the grid. */
  function GridSum(g: seq<seq<int>>): int
  {
    if g == [] then 0 else RowSum(g[0]) + GridSum(g[1..])
  }

  lemma {:induction false} RowSumUpdate(row: seq<int>, i: nat, v: int)
    requires i < |row|
    ensures RowSum(row[i := v]) == RowSum(row) - row[i] + v
  {
    if i == 0 {
      assert row[i := v][1..] == row[1..];
    } else {
      assert row[i := v][1..] == row[1..][i - 1 := v];
      RowSumUpdate(row[1..], i - 1, v);
    }
  }

  lemma {:induction false} GridSumUpdate(g: seq<seq<int>>, i: nat, row: seq<int>)
    requires i < |g|
    ensures GridSum(g[i := row]) == GridSum(g) - RowSum(g[i]) + RowSum(row)
  {
    if i == 0 {
      assert g[i := row][1..] == g[1..];
    } else {
      assert g[i := row][1..] == g[1..][i - 1 := row];
      GridSumUpdate(g[1..], i - 1, row);
    }
  }

  /** Writing v into one cell changes the grid sum by v minus the old value. */
  lemma SetSum(g: Grid, r: int, c: int, v: int)
    requires Shaped(g) && 0 <= r < Rows && 0 <= c < Cols
    ensures GridSum(Set(g, r, c, v)) == GridSum(g) - g[r][c] + v
  {
    RowSumUpdate(g[r], c, v);
    GridSumUpdate(g, r, g[r][c := v]);
  }

  lemma {:induction false} ZeroRowSum(row: seq<int>)
    requires forall i :: 0 <= i < |row| ==> row[i] == 0
    ensures RowSum(row) == 0
  {
    if row != [] {
      ZeroRowSum(row[1..]);
    }
  }

  lemma {:induction false} ZeroGridSum(g: seq<seq<int>>)
    requires forall r, c :: 0 <= r < |g| && 0 <= c < |g[r]| ==> g[r][c] == 0
    ensures GridSum(g) == 0
  {
    if g != [] {
      ZeroRowSum(g[0]);
      ZeroGridSum(g[1..]);
    }
  }

  /** The empty grid sums to zero. */
  lemma EmptySum()
    ensures GridSum(Empty()) == 0
  {
    ZeroGridSum(Empty());
  }
}
