/**
 * The elementary Rule 30 automaton on the middle row, with every other row
 * shifted one column to the right (`rule30Step` of contribution-calendar.tsx).
 */
module Rule30 {
  import opened GridBuffer

  /** The middle row, `Math.floor(ROWS / 2)`. */
  const Mid: nat := Rows / 2

  /** New centre value indexed by (left << 2) | (center << 1) | right. */
  const Rule30Table: seq<int> := [0, 1, 1, 1, 1, 0, 0, 0]

  predicate IsBit(x: int)
  {
    x == 0 || x == 1
  }

  /** Every cell of the middle row is 0 or 1, so the table index is in range. */
  predicate MiddleBinary(g: Grid)
    requires Shaped(g)
  {
    forall c :: 0 <= c < Cols ==> IsBit(g[Mid][c])
  }

  /** The table lookup agrees with the textbook definition of rule 30:
      the new centre is left XOR (center OR right). */
  function Rule30Rule(left: int, center: int, right: int): (v: int)
    requires IsBit(left) && IsBit(center) && IsBit(right)
    ensures IsBit(v)
    ensures v == 1 <==> (left == 1) != (center == 1 || right == 1)
  {
    Rule30Table[4 * left + 2 * center + right]
  }

  /** The next value of one cell, read from the pre-step grid. */
  function Rule30Cell(g: Grid, r: int, c: int): int
    requires Shaped(g) && MiddleBinary(g) && 0 <= r < Rows && 0 <= c < Cols
  {
    if r == Mid then
      if 1 <= c < Cols - 1 then Rule30Rule(g[Mid][c - 1], g[Mid][c], g[Mid][c + 1]) else g[Mid][c]
    else
      if c == 0 then 0 else g[r][c - 1]
  }

  /** One Rule 30 step over the whole grid. */
  function Rule30Next(g: Grid): (next: Grid)
    requires Shaped(g) && MiddleBinary(g)
    ensures Shaped(next) && MiddleBinary(next)
    // the two end cells of the middle row keep their values
    ensures next[Mid][0] == g[Mid][0] && next[Mid][Cols - 1] == g[Mid][Cols - 1]
    // every other row moves one column to the right, and column 0 becomes 0
    ensures forall r :: 0 <= r < Rows && r != Mid ==> next[r] == [0] + g[r][..Cols - 1]
  {
    var next := seq(Rows, r requires 0 <= r < Rows => seq(Cols, c requires 0 <= c < Cols => Rule30Cell(g, r, c)));
    assert forall r :: 0 <= r < Rows && r != Mid ==> next[r] == [0] + g[r][..Cols - 1];
    next
  }

  /** The grid right after the middle-row loop has handled columns 1 .. col - 1. */
  function MiddleDone(g: Grid, col: int, r: int, c: int): int
    requires Shaped(g) && MiddleBinary(g) && 0 <= r < Rows && 0 <= c < Cols
  {
    if r == Mid && 1 <= c < col then Rule30Cell(g, r, c) else g[r][c]
  }

  /** `rule30Step`: copy the grid, rewrite the interior of the middle row from the old
      middle row, then shift every other row right, scanning columns from the right. */
  method Rule30Step(currentGrid: Grid) returns (newGrid: Grid)
    requires Shaped(currentGrid) && MiddleBinary(currentGrid)
    ensures newGrid == Rule30Next(currentGrid)
  {
    newGrid := currentGrid;
    var middleRow := Rows / 2;
    var currentRow := currentGrid[middleRow];
    var col := 1;
    while col < Cols - 1
      invariant 1 <= col <= Cols - 1 && Shaped(newGrid)
      invariant forall r, c :: 0 <= r < Rows && 0 <= c < Cols ==> newGrid[r][c] == MiddleDone(currentGrid, col, r, c)
    {
      var left, center, right := currentRow[col - 1], currentRow[col], currentRow[col + 1];
      var pattern := 4 * left + 2 * center + right;
      newGrid := Set(newGrid, middleRow, col, Rule30Table[pattern]);
      col := col + 1;
    }
    var row := 0;
    while row < Rows
      invariant 0 <= row <= Rows && Shaped(newGrid)
      invariant forall r, c :: 0 <= r < Rows && 0 <= c < Cols ==>
        newGrid[r][c] == if r < row then Rule30Cell(currentGrid, r, c) else MiddleDone(currentGrid, Cols - 1, r, c)
    {
      if row != middleRow {
        col := Cols - 1;
        while col > 0
          invariant 0 <= col <= Cols - 1 && Shaped(newGrid)
          invariant forall r, c :: 0 <= r < Rows && 0 <= c < Cols ==>
            newGrid[r][c] == if r < row || (r == row && c > col) then Rule30Cell(currentGrid, r, c)
                             else MiddleDone(currentGrid, Cols - 1, r, c)
        {
          newGrid := Set(newGrid, row, col, currentGrid[row][col - 1]);
          col := col - 1;
        }
        newGrid := Set(newGrid, row, 0, 0);
      }
      row := row + 1;
    }
    CellwiseEqual(newGrid, Rule30Next(currentGrid));
  }

  /** The seed `changePattern` installs for Rule 30: a single 1 at (Mid, Cols / 2). */
  function Seed(): (g: Grid)
    ensures Shaped(g) && Binary(g) && MiddleBinary(g)
    ensures forall r, c :: 0 <= r < Rows && 0 <= c < Cols ==> (g[r][c] == 1 <==> r == Mid && c == Cols / 2)
  {
    Set(Empty(), Rows / 2, Cols / 2, 1)
  }

  /** An all-zero middle row stays all-zero. */
  lemma ZeroMiddleStaysZero(g: Grid)
    requires Shaped(g) && forall c :: 0 <= c < Cols ==> g[Mid][c] == 0
    ensures forall c :: 0 <= c < Cols ==> Rule30Next(g)[Mid][c] == 0
  {
    forall c | 0 <= c < Cols
      ensures Rule30Next(g)[Mid][c] == 0
    {
      assert Rule30Next(g)[Mid][c] == Rule30Cell(g, Mid, c);
    }
  }

  /** A single 1 away from the ends of the middle row becomes three ones, at k - 1, k and k + 1. */
  lemma SingleCellSpreads(g: Grid, k: int)
    requires Shaped(g) && 2 <= k < Cols - 2
    requires forall c :: 0 <= c < Cols ==> g[Mid][c] == (if c == k then 1 else 0)
    ensures forall c :: 0 <= c < Cols ==> Rule30Next(g)[Mid][c] == (if k - 1 <= c <= k + 1 then 1 else 0)
  {
    forall c | 0 <= c < Cols
      ensures Rule30Next(g)[Mid][c] == (if k - 1 <= c <= k + 1 then 1 else 0)
    {
      assert Rule30Next(g)[Mid][c] == Rule30Cell(g, Mid, c);
    }
  }

  /** From the seed, one step gives 1, 1, 1 at columns 25 .. 27 of the middle row and zeros elsewhere. */
  lemma SeedFirstStep()
    ensures var next := Rule30Next(Seed());
      next[Mid][25] == 1 && next[Mid][26] == 1 && next[Mid][27] == 1
      && (forall c :: 0 <= c < Cols && (c < 25 || 27 < c) ==> next[Mid][c] == 0)
      && (forall r, c :: 0 <= r < Rows && 0 <= c < Cols && r != Mid ==> next[r][c] == 0)
  {
    SingleCellSpreads(Seed(), Cols / 2);
  }
}
