/**
 The cell matrix of the Game of Life page: a fixed GridSize x GridSize
 matrix of booleans (true = alive), the grids the page builds from scratch
 (all dead, randomly seeded), the single-cell toggle, and the live-cell count
 shown in the header.
 */
module LifeGrid {

  /** Side length of the square grid. */
  const GridSize: nat := 50

  /** Row-major: g[x][y] is the cell in row x, column y. */
  type Grid = seq<seq<bool>>

  /** The grid has GridSize rows of GridSize cells each. */
  predicate WellFormed(g: Grid)
  {
    |g| == GridSize && forall x :: 0 <= x < |g| ==> |g[x]| == GridSize
  }

  /** (x, y) names a cell of the grid. */
  predicate InBounds(x: int, y: int)
  {
    0 <= x < GridSize && 0 <= y < GridSize
  }

  /** (x, y) is a cell of the grid and that cell is alive; positions off the grid are never alive. */
  predicate Alive(g: Grid, x: int, y: int)
    requires WellFormed(g)
  {
    InBounds(x, y) && g[x][y]
  }

  /** The grid of `clearGrid` and of the page's initial state: every cell dead. */
  function EmptyGrid(): (r: Grid)
    ensures WellFormed(r)
    ensures forall x, y :: InBounds(x, y) ==> !r[x][y]
  {
    seq(GridSize, _ => seq(GridSize, _ => false))
  }

  /**
   The grid of `initializeRandom`. `draw(x, y)` stands for the outcome of
   the coin flip `Math.random() > 0.7` made for cell (x, y); the randomness
   itself is outside the model.
   */
  function SeededGrid(draw: (int, int) -> bool): (r: Grid)
    ensures WellFormed(r)
    ensures forall x, y :: InBounds(x, y) ==> r[x][y] == draw(x, y)
  {
    seq(GridSize, x => seq(GridSize, y => draw(x, y)))
  }

  /**
   The grid update of `toggleCell`: row x is rebuilt with cell y negated,
   every other row is kept. Coordinates that match no cell change nothing.
   */
  function Toggled(g: Grid, x: int, y: int): (r: Grid)
    ensures |r| == |g| && forall i :: 0 <= i < |g| ==> |r[i]| == |g[i]|
    ensures 0 <= x < |g| && 0 <= y < |g[x]| ==> r[x][y] == !g[x][y]
    ensures forall i, j :: 0 <= i < |g| && 0 <= j < |g[i]| && (i != x || j != y) ==> r[i][j] == g[i][j]
  {
    seq(|g|, i requires 0 <= i < |g| =>
      if i == x then seq(|g[i]|, j requires 0 <= j < |g[i]| => if j == y then !g[i][j] else g[i][j])
      else g[i])
  }

  lemma ToggledWellFormed(g: Grid, x: int, y: int)
    requires WellFormed(g)
    ensures WellFormed(Toggled(g, x, y))
  {
  }

  /** Toggling the same cell twice restores the grid. */
  lemma ToggledTwice(g: Grid, x: int, y: int)
    ensures Toggled(Toggled(g, x, y), x, y) == g
  {
    var r := Toggled(Toggled(g, x, y), x, y);
    assert |r| == |g|;
    forall i | 0 <= i < |g|
      ensures r[i] == g[i]
    {
      assert |r[i]| == |g[i]|;
    }
  }

  /** A toggle at a position off the grid leaves the grid unchanged. */
  lemma ToggledOutOfRange(g: Grid, x: int, y: int)
    requires WellFormed(g)
    requires !InBounds(x, y)
    ensures Toggled(g, x, y) == g
  {
    var r := Toggled(g, x, y);
    forall i | 0 <= i < |g|
      ensures r[i] == g[i]
    {
      assert |r[i]| == |g[i]|;
    }
  }

  /** An in-range toggle is the point update of the one cell. */
  lemma ToggledIsPointUpdate(g: Grid, x: int, y: int)
    requires WellFormed(g)
    requires InBounds(x, y)
    ensures Toggled(g, x, y) == g[x := g[x][y := !g[x][y]]]
  {
    var r := Toggled(g, x, y);
    var u := g[x := g[x][y := !g[x][y]]];
    forall i | 0 <= i < |g|
      ensures r[i] == u[i]
    {
      assert |r[i]| == |u[i]|;
    }
  }

  // ---------------------------------------------------------------------
  // The header's live-cell count: grid.flat().filter(cell => cell).length
  // ---------------------------------------------------------------------

  /** The rows of the grid laid end to end (`Array.prototype.flat`). */
  function Flat(g: Grid): seq<bool>
  {
    if g == [] then [] else g[0] + Flat(g[1..])
  }

  /** The number of true entries of s (`filter(cell => cell).length`). */
  function CountTrue(s: seq<bool>): nat
  {
    if s == [] then 0 else (if s[0] then 1 else 0) + CountTrue(s[1..])
  }

  /** The live-cell count of the page header. */
  function LiveCells(g: Grid): nat
  {
    CountTrue(Flat(g))
  }

  /** The live-cell count summed row by row. */
  function RowTotals(g: Grid): nat
  {
    if g == [] then 0 else CountTrue(g[0]) + RowTotals(g[1..])
  }

  lemma {:induction false} CountTrueAtMostLength(s: seq<bool>)
    ensures CountTrue(s) <= |s|
  {
    if s != [] {
      CountTrueAtMostLength(s[1..]);
    }
  }

  lemma {:induction false} CountTrueAppend(a: seq<bool>, b: seq<bool>)
    ensures CountTrue(a + b) == CountTrue(a) + CountTrue(b)
  {
    if a == [] {
      assert a + b == b;
    } else {
      assert (a + b)[1..] == a[1..] + b;
      CountTrueAppend(a[1..], b);
    }
  }

  /** Negating one entry moves the count of true entries by exactly one. */
  lemma {:induction false} CountTrueFlip(s: seq<bool>, k: nat)
    requires k < |s|
    ensures CountTrue(s[k := !s[k]]) == if s[k] then CountTrue(s) - 1 else CountTrue(s) + 1
  {
    if k > 0 {
      assert s[k := !s[k]][1..] == s[1..][k - 1 := !s[k]];
      CountTrueFlip(s[1..], k - 1);
    }
  }

  lemma {:induction false} LiveCellsByRows(g: Grid)
    ensures LiveCells(g) == RowTotals(g)
  {
    if g != [] {
      CountTrueAppend(g[0], Flat(g[1..]));
      LiveCellsByRows(g[1..]);
    }
  }

  /** Rows all of length n flatten to a sequence of length |g| * n. */
  lemma {:induction false} FlatLength(g: Grid, n: nat)
    requires forall x :: 0 <= x < |g| ==> |g[x]| == n
    ensures |Flat(g)| == |g| * n
  {
    if g != [] {
      FlatLength(g[1..], n);
    }
  }

  /** The header count lies between 0 and GridSize squared. */
  lemma LiveCellsBounded(g: Grid)
    requires WellFormed(g)
    ensures 0 <= LiveCells(g) <= GridSize * GridSize
  {
    FlatLength(g, GridSize);
    CountTrueAtMostLength(Flat(g));
  }

  /** A cleared grid shows a live-cell count of 0. */
  lemma {:induction false} NoLiveCellsWhenEmpty(g: Grid)
    requires forall x, y :: 0 <= x < |g| && 0 <= y < |g[x]| ==> !g[x][y]
    ensures LiveCells(g) == 0
  {
    LiveCellsByRows(g);
    NoRowTotals(g);
  }

  lemma {:induction false} NoRowTotals(g: Grid)
    requires forall x, y :: 0 <= x < |g| && 0 <= y < |g[x]| ==> !g[x][y]
    ensures RowTotals(g) == 0
  {
    if g != [] {
      NoTrue(g[0]);
      NoRowTotals(g[1..]);
    }
  }

  lemma {:induction false} NoTrue(s: seq<bool>)
    requires forall k :: 0 <= k < |s| ==> !s[k]
    ensures CountTrue(s) == 0
  {
    if s != [] {
      NoTrue(s[1..]);
    }
  }

  lemma {:induction false} RowTotalsUpdate(g: Grid, x: nat, row: seq<bool>)
    requires x < |g|
    ensures RowTotals(g[x := row]) == RowTotals(g) - CountTrue(g[x]) + CountTrue(row)
  {
    if x > 0 {
      assert g[x := row][1..] == g[1..][x - 1 := row];
      RowTotalsUpdate(g[1..], x - 1, row);
    }
  }

  /** Toggling a cell moves the header count by exactly one, in the direction of the new state. */
  lemma ToggledLiveCells(g: Grid, x: int, y: int)
    requires WellFormed(g)
    requires InBounds(x, y)
    ensures LiveCells(Toggled(g, x, y)) == if g[x][y] then LiveCells(g) - 1 else LiveCells(g) + 1
  {
    ToggledIsPointUpdate(g, x, y);
    LiveCellsByRows(g);
    LiveCellsByRows(g[x := g[x][y := !g[x][y]]]);
    RowTotalsUpdate(g, x, g[x][y := !g[x][y]]);
    CountTrueFlip(g[x], y);
  }
}
