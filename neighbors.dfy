/**
 Neighbor counting (`countNeighbors`): the number of live cells among the
 eight positions around (x, y). Positions off the grid are skipped, not
 wrapped around, and the cell itself is never counted.
 */
module NeighborCount {
  import opened LifeGrid

  /** What the position at offset (i, j) from (x, y) adds to the count. */
  function Contribution(g: Grid, x: int, y: int, i: int, j: int): nat
    requires WellFormed(g)
  {
    if i == 0 && j == 0 then 0 else if Alive(g, x + i, y + j) then 1 else 0
  }

  /** Count over row offset i and column offsets -1 .. j-1 (the inner loop after it has run up to j). */
  function RowCount(g: Grid, x: int, y: int, i: int, j: int): nat
    requires WellFormed(g)
    requires -1 <= j <= 2
    decreases j + 1
  {
    if j == -1 then 0 else RowCount(g, x, y, i, j - 1) + Contribution(g, x, y, i, j - 1)
  }

  /** Count over row offsets -1 .. i-1 (the outer loop after it has run up to i). */
  function BlockCount(g: Grid, x: int, y: int, i: int): nat
    requires WellFormed(g)
    requires -1 <= i <= 2
    decreases i + 1
  {
    if i == -1 then 0 else BlockCount(g, x, y, i - 1) + RowCount(g, x, y, i - 1, 2)
  }

  /** The number of live neighbors of (x, y), as `countNeighbors` returns it. */
  function Neighbors(g: Grid, x: int, y: int): nat
    requires WellFormed(g)
  {
    BlockCount(g, x, y, 2)
  }

  /** `countNeighbors`: the nested offset loops with a running count. */
  method CountNeighbors(g: Grid, x: int, y: int) returns (count: nat)
    requires WellFormed(g)
    ensures count == Neighbors(g, x, y)
  {
    count := 0;
    for i := -1 to 2
      invariant count == BlockCount(g, x, y, i)
    {
      for j := -1 to 2
        invariant count == BlockCount(g, x, y, i) + RowCount(g, x, y, i, j)
      {
        if i == 0 && j == 0 {
          continue;
        }
        var nx := x + i;
        var ny := y + j;
        if nx >= 0 && nx < GridSize && ny >= 0 && ny < GridSize {
          if g[nx][ny] {
            count := count + 1;
          }
        }
      }
    }
  }

  /** 1 if the position is alive, 0 otherwise (positions off the grid give 0). */
  function LiveAt(g: Grid, a: int, b: int): nat
    requires WellFormed(g)
  {
    if Alive(g, a, b) then 1 else 0
  }

  /** The count written out as the sum over the eight surrounding positions. */
  lemma NeighborsExplicit(g: Grid, x: int, y: int)
    requires WellFormed(g)
    ensures Neighbors(g, x, y) ==
      LiveAt(g, x - 1, y - 1) + LiveAt(g, x - 1, y) + LiveAt(g, x - 1, y + 1) +
      LiveAt(g, x, y - 1) + LiveAt(g, x, y + 1) +
      LiveAt(g, x + 1, y - 1) + LiveAt(g, x + 1, y) + LiveAt(g, x + 1, y + 1)
  {
    assert RowCount(g, x, y, -1, 2) == LiveAt(g, x - 1, y - 1) + LiveAt(g, x - 1, y) + LiveAt(g, x - 1, y + 1) by {
      assert RowCount(g, x, y, -1, 1) == RowCount(g, x, y, -1, 0) + Contribution(g, x, y, -1, 0);
    }
    assert RowCount(g, x, y, 0, 2) == LiveAt(g, x, y - 1) + LiveAt(g, x, y + 1) by {
      assert RowCount(g, x, y, 0, 1) == RowCount(g, x, y, 0, 0) + Contribution(g, x, y, 0, 0);
    }
    assert RowCount(g, x, y, 1, 2) == LiveAt(g, x + 1, y - 1) + LiveAt(g, x + 1, y) + LiveAt(g, x + 1, y + 1) by {
      assert RowCount(g, x, y, 1, 1) == RowCount(g, x, y, 1, 0) + Contribution(g, x, y, 1, 0);
    }
    assert BlockCount(g, x, y, 1) == BlockCount(g, x, y, 0) + RowCount(g, x, y, 0, 2);
  }

  /** At most eight neighbors. */
  lemma NeighborsBounded(g: Grid, x: int, y: int)
    requires WellFormed(g)
    ensures 0 <= Neighbors(g, x, y) <= 8
  {
    NeighborsExplicit(g, x, y);
  }

  /** A corner cell has only three positions to look at, so at most three neighbors. */
  lemma CornerNeighbors(g: Grid)
    requires WellFormed(g)
    ensures Neighbors(g, 0, 0) == LiveAt(g, 0, 1) + LiveAt(g, 1, 0) + LiveAt(g, 1, 1)
    ensures Neighbors(g, 0, 0) <= 3
  {
    NeighborsExplicit(g, 0, 0);
  }

  /**
   The reference definition: the set of live cells at Chebyshev distance
   exactly 1 from (x, y) that lie on the grid.
   */
  ghost function LiveNeighborSet(g: Grid, x: int, y: int): set<(int, int)>
    requires WellFormed(g)
  {
    set a, b | x - 1 <= a <= x + 1 && y - 1 <= b <= y + 1 && (a != x || b != y) && Alive(g, a, b) :: (a, b)
  }

  /** Live positions of row offset i with column offsets -1 .. j-1, the centre excluded. */
  ghost function RowSet(g: Grid, x: int, y: int, i: int, j: int): set<(int, int)>
    requires WellFormed(g)
  {
    set a, b | a == x + i && y - 1 <= b < y + j && (a != x || b != y) && Alive(g, a, b) :: (a, b)
  }

  /** Live positions of row offsets -1 .. i-1 and all three column offsets, the centre excluded. */
  ghost function BlockSet(g: Grid, x: int, y: int, i: int): set<(int, int)>
    requires WellFormed(g)
  {
    set a, b | x - 1 <= a < x + i && y - 1 <= b <= y + 1 && (a != x || b != y) && Alive(g, a, b) :: (a, b)
  }

  /** The live position at column offset j-1 is the one added when the inner loop passes it. */
  ghost function AddedAt(g: Grid, x: int, y: int, i: int, j: int): set<(int, int)>
    requires WellFormed(g)
  {
    if Contribution(g, x, y, i, j - 1) == 1 then {(x + i, y + j - 1)} else {}
  }

  lemma RowSetSplit(g: Grid, x: int, y: int, i: int, j: int)
    requires WellFormed(g)
    requires 0 <= j
    ensures RowSet(g, x, y, i, j) == RowSet(g, x, y, i, j - 1) + AddedAt(g, x, y, i, j)
    ensures RowSet(g, x, y, i, j - 1) !! AddedAt(g, x, y, i, j)
  {
    var before := RowSet(g, x, y, i, j - 1);
    var added := AddedAt(g, x, y, i, j);
    var all := RowSet(g, x, y, i, j);
    forall p | p in all
      ensures p in before + added
    {
      if p.1 < y + j - 1 {
        assert p in before;
      } else {
        assert p in added;
      }
    }
    forall p | p in before + added
      ensures p in all
    {
    }
  }

  lemma BlockSetSplit(g: Grid, x: int, y: int, i: int)
    requires WellFormed(g)
    requires 0 <= i
    ensures BlockSet(g, x, y, i) == BlockSet(g, x, y, i - 1) + RowSet(g, x, y, i - 1, 2)
    ensures BlockSet(g, x, y, i - 1) !! RowSet(g, x, y, i - 1, 2)
  {
    var before := BlockSet(g, x, y, i - 1);
    var row := RowSet(g, x, y, i - 1, 2);
    var all := BlockSet(g, x, y, i);
    forall p | p in all
      ensures p in before + row
    {
      if p.0 < x + i - 1 {
        assert p in before;
      } else {
        assert p in row;
      }
    }
    forall p | p in before + row
      ensures p in all
    {
    }
  }

  lemma {:induction false} RowCountIsCardinality(g: Grid, x: int, y: int, i: int, j: int)
    requires WellFormed(g)
    requires -1 <= j <= 2
    ensures RowCount(g, x, y, i, j) == |RowSet(g, x, y, i, j)|
    decreases j + 1
  {
    if j == -1 {
      assert RowSet(g, x, y, i, j) == {};
    } else {
      RowCountIsCardinality(g, x, y, i, j - 1);
      RowSetSplit(g, x, y, i, j);
    }
  }

  lemma {:induction false} BlockCountIsCardinality(g: Grid, x: int, y: int, i: int)
    requires WellFormed(g)
    requires -1 <= i <= 2
    ensures BlockCount(g, x, y, i) == |BlockSet(g, x, y, i)|
    decreases i + 1
  {
    if i == -1 {
      assert BlockSet(g, x, y, i) == {};
    } else {
      BlockCountIsCardinality(g, x, y, i - 1);
      RowCountIsCardinality(g, x, y, i - 1, 2);
      BlockSetSplit(g, x, y, i);
    }
  }

  /**
   `countNeighbors` counts exactly the live on-grid cells at distance 1:
   nothing off the grid (no wrap-around), never the cell itself, and each
   neighbor once.
   */
  lemma NeighborsIsLiveNeighborCount(g: Grid, x: int, y: int)
    requires WellFormed(g)
    ensures Neighbors(g, x, y) == |LiveNeighborSet(g, x, y)|
  {
    BlockCountIsCardinality(g, x, y, 2);
    assert BlockSet(g, x, y, 2) == LiveNeighborSet(g, x, y);
  }

  /**
   The count at (x, y) depends only on the eight surrounding cells of the
   grid: two grids that agree there give the same count.
   */
  lemma NeighborsLocal(g: Grid, h: Grid, x: int, y: int)
    requires WellFormed(g) && WellFormed(h)
    requires forall a, b :: x - 1 <= a <= x + 1 && y - 1 <= b <= y + 1 && (a != x || b != y) && InBounds(a, b) ==> g[a][b] == h[a][b]
    ensures Neighbors(g, x, y) == Neighbors(h, x, y)
  {
    NeighborsExplicit(g, x, y);
    NeighborsExplicit(h, x, y);
  }

  /** The state of the cell itself does not affect its count. */
  lemma NeighborsIgnoreSelf(g: Grid, x: int, y: int, v: bool)
    requires WellFormed(g)
    requires InBounds(x, y)
    ensures WellFormed(g[x := g[x][y := v]])
    ensures Neighbors(g[x := g[x][y := v]], x, y) == Neighbors(g, x, y)
  {
    NeighborsLocal(g, g[x := g[x][y := v]], x, y);
  }

  /** No live cells, no neighbors. */
  lemma NoNeighborsWhenAllDead(g: Grid, x: int, y: int)
    requires WellFormed(g)
    requires forall a, b :: InBounds(a, b) ==> !g[a][b]
    ensures Neighbors(g, x, y) == 0
  {
    NeighborsExplicit(g, x, y);
  }
}
