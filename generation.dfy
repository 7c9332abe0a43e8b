/**
 One generation step (`nextGeneration`): every cell of the new grid is
 computed from the old grid alone, by Conway's rule — a live cell survives
 with 2 or 3 live neighbors, a dead cell is born with exactly 3.
 */
module Generation {
  import opened LifeGrid
  import opened NeighborCount

  /** Conway's rule: the next state of a cell that is `alive` and has n live neighbors. */
  predicate NextState(alive: bool, n: nat)
  {
    if alive then n == 2 || n == 3 else n == 3
  }

  /**
   `nextGeneration`: the old grid mapped row by row and cell by cell; every
   count is taken on the old grid `g`, never on the grid being built.
   */
  function NextGeneration(g: Grid): (r: Grid)
    requires WellFormed(g)
    ensures WellFormed(r)
    ensures forall x, y :: InBounds(x, y) ==> r[x][y] == NextState(g[x][y], Neighbors(g, x, y))
  {
    seq(|g|, x requires 0 <= x < |g| =>
      seq(|g[x]|, y requires 0 <= y < |g[x]| => NextState(g[x][y], Neighbors(g, x, y))))
  }

  /**
   The rule in terms of the reference set of live neighbors: a cell is
   alive in the next generation iff it has exactly three live neighbors,
   or it is alive now and has exactly two.
   */
  lemma NextGenerationRule(g: Grid, x: int, y: int)
    requires WellFormed(g)
    requires InBounds(x, y)
    ensures NextGeneration(g)[x][y] <==>
      |LiveNeighborSet(g, x, y)| == 3 || (g[x][y] && |LiveNeighborSet(g, x, y)| == 2)
  {
    NeighborsIsLiveNeighborCount(g, x, y);
  }

  /**
   The new state of a cell depends only on the old grid around it: two old
   grids that agree on the 3x3 block centred on (x, y) give the same new cell.
   */
  lemma NextGenerationLocal(g: Grid, h: Grid, x: int, y: int)
    requires WellFormed(g) && WellFormed(h)
    requires InBounds(x, y)
    requires forall a, b :: x - 1 <= a <= x + 1 && y - 1 <= b <= y + 1 && InBounds(a, b) ==> g[a][b] == h[a][b]
    ensures NextGeneration(g)[x][y] == NextGeneration(h)[x][y]
  {
    NeighborsLocal(g, h, x, y);
  }

  /** No spontaneous life: a grid with no live cell steps to the all-dead grid. */
  lemma AllDeadStaysDead(g: Grid)
    requires WellFormed(g)
    requires forall a, b :: InBounds(a, b) ==> !g[a][b]
    ensures NextGeneration(g) == EmptyGrid()
  {
    var r := NextGeneration(g);
    var e := EmptyGrid();
    forall x | 0 <= x < GridSize
      ensures r[x] == e[x]
    {
      forall y | 0 <= y < GridSize
        ensures r[x][y] == e[x][y]
      {
        NoNeighborsWhenAllDead(g, x, y);
      }
    }
  }

  /** A live cell whose eight surrounding cells are all dead dies. */
  lemma LonelyCellDies(g: Grid, x: int, y: int)
    requires WellFormed(g)
    requires InBounds(x, y)
    requires forall a, b :: x - 1 <= a <= x + 1 && y - 1 <= b <= y + 1 && (a != x || b != y) && InBounds(a, b) ==> !g[a][b]
    ensures !NextGeneration(g)[x][y]
  {
    NeighborsExplicit(g, x, y);
  }

  /**
   No wrap-around at the corner: a live (0, 0) whose three on-grid
   neighbors are all alive has exactly three neighbors and survives,
   whatever the opposite edges hold.
   */
  lemma FullCornerSurvives(g: Grid)
    requires WellFormed(g)
    requires g[0][0] && g[0][1] && g[1][0] && g[1][1]
    ensures Neighbors(g, 0, 0) == 3
    ensures NextGeneration(g)[0][0]
  {
    CornerNeighbors(g);
  }

  // ---------------------------------------------------------------------
  // The blinker: three cells in a line oscillate with period 2.
  // ---------------------------------------------------------------------

  /** The grid whose live cells are exactly the on-grid members of `cells`. */
  function Pattern(cells: set<(int, int)>): (r: Grid)
    ensures WellFormed(r)
    ensures forall a, b :: InBounds(a, b) ==> (r[a][b] <==> (a, b) in cells)
  {
    seq(GridSize, a => seq(GridSize, b => (a, b) in cells))
  }

  /** Three cells in row x, centred on column y. */
  function HorizontalBar(x: int, y: int): set<(int, int)>
  {
    {(x, y - 1), (x, y), (x, y + 1)}
  }

  /** Three cells in column y, centred on row x. */
  function VerticalBar(x: int, y: int): set<(int, int)>
  {
    {(x - 1, y), (x, y), (x + 1, y)}
  }

  /** The centre of a blinker must be off the edge so that all three cells are on the grid. */
  predicate Interior(x: int, y: int)
  {
    1 <= x < GridSize - 1 && 1 <= y < GridSize - 1
  }

  /** On a pattern grid, a position contributes 1 exactly when it is on the grid and in the pattern. */
  lemma PatternLiveAt(cells: set<(int, int)>, a: int, b: int)
    ensures LiveAt(Pattern(cells), a, b) == LiveIn(cells, a, b)
  {
  }

  /** The count at (a, b) on a pattern grid, one position at a time. */
  lemma PatternNeighbors(cells: set<(int, int)>, a: int, b: int)
    ensures Neighbors(Pattern(cells), a, b) ==
      LiveIn(cells, a - 1, b - 1) + LiveIn(cells, a - 1, b) + LiveIn(cells, a - 1, b + 1) +
      LiveIn(cells, a, b - 1) + LiveIn(cells, a, b + 1) +
      LiveIn(cells, a + 1, b - 1) + LiveIn(cells, a + 1, b) + LiveIn(cells, a + 1, b + 1)
  {
    var g := Pattern(cells);
    NeighborsExplicit(g, a, b);
    PatternLiveAt(cells, a - 1, b - 1);
    PatternLiveAt(cells, a - 1, b);
    PatternLiveAt(cells, a - 1, b + 1);
    PatternLiveAt(cells, a, b - 1);
    PatternLiveAt(cells, a, b + 1);
    PatternLiveAt(cells, a + 1, b - 1);
    PatternLiveAt(cells, a + 1, b);
    PatternLiveAt(cells, a + 1, b + 1);
  }

  function LiveIn(cells: set<(int, int)>, a: int, b: int): nat
  {
    if InBounds(a, b) && (a, b) in cells then 1 else 0
  }

  /** Neighbor counts around a horizontal bar: 2 at its centre, 3 just above and below it, never 3 elsewhere. */
  lemma HorizontalCounts(x: int, y: int, a: int, b: int)
    requires Interior(x, y)
    ensures a == x && b == y ==> Neighbors(Pattern(HorizontalBar(x, y)), a, b) == 2
    ensures a == x && (b == y - 1 || b == y + 1) ==> Neighbors(Pattern(HorizontalBar(x, y)), a, b) == 1
    ensures (a == x - 1 || a == x + 1) && b == y ==> Neighbors(Pattern(HorizontalBar(x, y)), a, b) == 3
    ensures !((a == x - 1 || a == x + 1) && b == y) ==> Neighbors(Pattern(HorizontalBar(x, y)), a, b) != 3
  {
    PatternNeighbors(HorizontalBar(x, y), a, b);
    HorizontalLiveIn(x, y, a - 1, b - 1);
    HorizontalLiveIn(x, y, a - 1, b);
    HorizontalLiveIn(x, y, a - 1, b + 1);
    HorizontalLiveIn(x, y, a, b - 1);
    HorizontalLiveIn(x, y, a, b + 1);
    HorizontalLiveIn(x, y, a + 1, b - 1);
    HorizontalLiveIn(x, y, a + 1, b);
    HorizontalLiveIn(x, y, a + 1, b + 1);
  }

  /** Neighbor counts around a vertical bar: 2 at its centre, 3 just left and right of it, never 3 elsewhere. */
  lemma VerticalCounts(x: int, y: int, a: int, b: int)
    requires Interior(x, y)
    ensures a == x && b == y ==> Neighbors(Pattern(VerticalBar(x, y)), a, b) == 2
    ensures (a == x - 1 || a == x + 1) && b == y ==> Neighbors(Pattern(VerticalBar(x, y)), a, b) == 1
    ensures a == x && (b == y - 1 || b == y + 1) ==> Neighbors(Pattern(VerticalBar(x, y)), a, b) == 3
    ensures !(a == x && (b == y - 1 || b == y + 1)) ==> Neighbors(Pattern(VerticalBar(x, y)), a, b) != 3
  {
    PatternNeighbors(VerticalBar(x, y), a, b);
    VerticalLiveIn(x, y, a - 1, b - 1);
    VerticalLiveIn(x, y, a - 1, b);
    VerticalLiveIn(x, y, a - 1, b + 1);
    VerticalLiveIn(x, y, a, b - 1);
    VerticalLiveIn(x, y, a, b + 1);
    VerticalLiveIn(x, y, a + 1, b - 1);
    VerticalLiveIn(x, y, a + 1, b);
    VerticalLiveIn(x, y, a + 1, b + 1);
  }

  /** Conway's rule around a horizontal bar: alive next exactly on the vertical bar. */
  lemma HorizontalRule(x: int, y: int, a: int, b: int, alive: bool, n: nat)
    requires alive == (a == x && y - 1 <= b <= y + 1)
    requires a == x && b == y ==> n == 2
    requires a == x && (b == y - 1 || b == y + 1) ==> n == 1
    requires (a == x - 1 || a == x + 1) && b == y ==> n == 3
    requires !((a == x - 1 || a == x + 1) && b == y) ==> n != 3
    ensures NextState(alive, n) == (b == y && x - 1 <= a <= x + 1)
  {
  }

  /** Conway's rule around a vertical bar: alive next exactly on the horizontal bar. */
  lemma VerticalRule(x: int, y: int, a: int, b: int, alive: bool, n: nat)
    requires alive == (b == y && x - 1 <= a <= x + 1)
    requires a == x && b == y ==> n == 2
    requires (a == x - 1 || a == x + 1) && b == y ==> n == 1
    requires a == x && (b == y - 1 || b == y + 1) ==> n == 3
    requires !(a == x && (b == y - 1 || b == y + 1)) ==> n != 3
    ensures NextState(alive, n) == (a == x && y - 1 <= b <= y + 1)
  {
  }

  /** A cell of the next generation equals h's cell when h's cell follows the rule on g. */
  lemma StepAt(g: Grid, h: Grid, a: int, b: int)
    requires WellFormed(g) && WellFormed(h)
    requires InBounds(a, b)
    requires h[a][b] == NextState(g[a][b], Neighbors(g, a, b))
    ensures NextGeneration(g)[a][b] == h[a][b]
  {
  }

  lemma HorizontalToVerticalAt(x: int, y: int, a: int, b: int)
    requires Interior(x, y)
    requires InBounds(a, b)
    ensures NextGeneration(Pattern(HorizontalBar(x, y)))[a][b] == Pattern(VerticalBar(x, y))[a][b]
  {
    var g := Pattern(HorizontalBar(x, y));
    var v := Pattern(VerticalBar(x, y));
    HorizontalCounts(x, y, a, b);
    BarMembers(x, y, a, b);
    HorizontalRule(x, y, a, b, g[a][b], Neighbors(g, a, b));
    StepAt(g, v, a, b);
  }

  lemma VerticalToHorizontalAt(x: int, y: int, a: int, b: int)
    requires Interior(x, y)
    requires InBounds(a, b)
    ensures NextGeneration(Pattern(VerticalBar(x, y)))[a][b] == Pattern(HorizontalBar(x, y))[a][b]
  {
    var g := Pattern(VerticalBar(x, y));
    var h := Pattern(HorizontalBar(x, y));
    VerticalCounts(x, y, a, b);
    BarMembers(x, y, a, b);
    VerticalRule(x, y, a, b, g[a][b], Neighbors(g, a, b));
    StepAt(g, h, a, b);
  }

  lemma BarMembers(x: int, y: int, a: int, b: int)
    ensures ((a, b) in HorizontalBar(x, y)) == (a == x && y - 1 <= b <= y + 1)
    ensures ((a, b) in VerticalBar(x, y)) == (b == y && x - 1 <= a <= x + 1)
  {
  }

  lemma HorizontalLiveIn(x: int, y: int, a: int, b: int)
    requires Interior(x, y)
    ensures LiveIn(HorizontalBar(x, y), a, b) == if a == x && y - 1 <= b <= y + 1 then 1 else 0
  {
  }

  lemma VerticalLiveIn(x: int, y: int, a: int, b: int)
    requires Interior(x, y)
    ensures LiveIn(VerticalBar(x, y), a, b) == if b == y && x - 1 <= a <= x + 1 then 1 else 0
  {
  }

  /** Two well-formed grids with the same cells are the same grid. */
  lemma SameCells(r: Grid, v: Grid)
    requires WellFormed(r) && WellFormed(v)
    requires forall a, b :: InBounds(a, b) ==> r[a][b] == v[a][b]
    ensures r == v
  {
    forall a | 0 <= a < GridSize
      ensures r[a] == v[a]
    {
      assert forall b :: 0 <= b < GridSize ==> r[a][b] == v[a][b];
    }
  }

  lemma HorizontalToVertical(x: int, y: int)
    requires Interior(x, y)
    ensures NextGeneration(Pattern(HorizontalBar(x, y))) == Pattern(VerticalBar(x, y))
  {
    forall a, b | InBounds(a, b)
      ensures NextGeneration(Pattern(HorizontalBar(x, y)))[a][b] == Pattern(VerticalBar(x, y))[a][b]
    {
      HorizontalToVerticalAt(x, y, a, b);
    }
    SameCells(NextGeneration(Pattern(HorizontalBar(x, y))), Pattern(VerticalBar(x, y)));
  }

  lemma VerticalToHorizontal(x: int, y: int)
    requires Interior(x, y)
    ensures NextGeneration(Pattern(VerticalBar(x, y))) == Pattern(HorizontalBar(x, y))
  {
    forall a, b | InBounds(a, b)
      ensures NextGeneration(Pattern(VerticalBar(x, y)))[a][b] == Pattern(HorizontalBar(x, y))[a][b]
    {
      VerticalToHorizontalAt(x, y, a, b);
    }
    SameCells(NextGeneration(Pattern(VerticalBar(x, y))), Pattern(HorizontalBar(x, y)));
  }

  /** The blinker changes at every step and returns after two. */
  lemma BlinkerPeriodTwo(x: int, y: int)
    requires Interior(x, y)
    ensures NextGeneration(Pattern(HorizontalBar(x, y))) != Pattern(HorizontalBar(x, y))
    ensures NextGeneration(NextGeneration(Pattern(HorizontalBar(x, y)))) == Pattern(HorizontalBar(x, y))
  {
    HorizontalToVertical(x, y);
    VerticalToHorizontal(x, y);
    BarsDiffer(x, y);
  }

  /** The cell just above the centre is alive in the vertical bar and dead in the horizontal one. */
  lemma BarsDiffer(x: int, y: int)
    requires Interior(x, y)
    ensures Pattern(VerticalBar(x, y))[x - 1][y] && !Pattern(HorizontalBar(x, y))[x - 1][y]
  {
    BarMembers(x, y, x - 1, y);
  }
}
