# Conway's Game of Life page — verified model of the simulation engine

The page `pages/index.tsx` runs Conway's Game of Life on a fixed 50 x 50 grid
of booleans. The page keeps four pieces of state: `grid`, `isRunning`,
`generation` and `speed`. It offers buttons to play or pause, clear and
randomize, a slider for the tick interval, and clicks that toggle single
cells while paused. While running, an interval timer replaces the grid with
its next generation and adds one to the generation counter. The header shows
the generation and the number of live cells.

This project models that engine in Dafny:

- `grid.dfy` (module `LifeGrid`): the grid as `seq<seq<bool>>` with its
  50 x 50 shape predicate. It also holds the grids the page builds: all dead
  (`clearGrid`, the initial state), randomly seeded (`initializeRandom`) and
  toggled (`toggleCell`). Last comes the header's live-cell count,
  `grid.flat().filter(cell => cell).length`.
- `neighbors.dfy` (module `NeighborCount`): `countNeighbors`. It is an
  imperative method with the source's two nested offset loops and a running
  count. It is proved equal to the function `Neighbors`. That function is
  then proved equal to the size of an independently defined set: the live
  on-grid cells at Chebyshev distance 1.
- `generation.dfy` (module `Generation`): `nextGeneration` as a function
  that reads only the old grid. It comes with Conway's rule, locality,
  no spontaneous life, the corner case without wrap-around, and the
  blinker's period of 2.
- `controller.dfy` (module `Controller`): the page state as the class
  `Simulation`, whose methods replace its fields as the setters do.

Some behaviors of the code that a reader might expect to differ; the
model follows the code:

- The interval slider's value is stored as it is, not clamped. The range
  50–500 is the slider's own bound, so `SetSpeed` requires it.
- A toggle at a position off the grid changes nothing, silently. It is not
  rejected, because the row and cell `map` simply matches no cell.
- A toggle while running is ignored. It is not an error.
- The page starts with an all-dead grid. The random seeding at start-up is a
  separate `initializeRandom` call made by a mount effect.

## Model

| member | source | states |
|---|---|---|
| LifeGrid.EmptyGrid | pages/index.tsx:28-32 | the cleared grid is 50 x 50 and every cell is dead |
| LifeGrid.SeededGrid | pages/index.tsx:19-22 | the random grid is 50 x 50 and cell (x, y) is the coin flip drawn for (x, y) |
| LifeGrid.Toggled | pages/index.tsx:69-71 | toggling keeps every row length, negates cell (x, y) when it exists, and leaves every other cell as it was |
| LifeGrid.ToggledWellFormed | pages/index.tsx:69-71 | a toggled 50 x 50 grid is still 50 x 50 |
| LifeGrid.ToggledTwice | pages/index.tsx:67-72 | toggling the same cell twice gives back the original grid |
| LifeGrid.ToggledOutOfRange | pages/index.tsx:69-71 | a toggle at a position off the grid leaves the grid unchanged |
| LifeGrid.ToggledIsPointUpdate | pages/index.tsx:69-71 | an in-range toggle is exactly the point update of row x at column y |
| LifeGrid.LiveCellsByRows | pages/index.tsx:108 | counting live cells in the flattened grid equals summing the live cells of each row |
| LifeGrid.FlatLength | pages/index.tsx:108 | flattening n-cell rows gives a sequence of (number of rows) x n cells |
| LifeGrid.LiveCellsBounded | pages/index.tsx:108 | the header's live-cell count lies between 0 and 50 x 50 |
| LifeGrid.NoLiveCellsWhenEmpty | pages/index.tsx:108 | a grid with no live cell shows a count of 0 |
| LifeGrid.ToggledLiveCells | pages/index.tsx:69-71 | an in-range toggle lowers the count by one when it kills a cell and raises it by one when it creates one |
| NeighborCount.CountNeighbors | pages/index.tsx:35-48 | the nested loops over offsets -1..1, skipping (0, 0) and off-grid positions, return exactly `Neighbors(g, x, y)` |
| NeighborCount.NeighborsExplicit | pages/index.tsx:37-44 | the count is the sum over the eight surrounding positions of 1 for each live on-grid cell |
| NeighborCount.NeighborsBounded | pages/index.tsx:35-48 | the count lies in [0, 8] |
| NeighborCount.CornerNeighbors | pages/index.tsx:42 | at the corner (0, 0) only (0, 1), (1, 0) and (1, 1) are counted, so the count is at most 3 |
| NeighborCount.RowCountIsCardinality | pages/index.tsx:38-44 | the inner loop's count over one row of offsets is the size of that row's set of live on-grid neighbors |
| NeighborCount.BlockCountIsCardinality | pages/index.tsx:37-46 | the outer loop's count over the rows done so far is the size of their set of live on-grid neighbors |
| NeighborCount.NeighborsIsLiveNeighborCount | pages/index.tsx:37-44 | the count is the size of the set of live cells on the grid at Chebyshev distance exactly 1: no wrap-around, never the cell itself |
| NeighborCount.NeighborsLocal | pages/index.tsx:40-43 | grids that agree on the eight surrounding cells give the same count |
| NeighborCount.NeighborsIgnoreSelf | pages/index.tsx:39 | changing the cell itself does not change its count |
| NeighborCount.NoNeighborsWhenAllDead | pages/index.tsx:35-48 | on a grid with no live cell every count is 0 |
| Generation.NextGeneration | pages/index.tsx:51-64 | the next grid is 50 x 50 and each cell follows Conway's rule on the old grid's cell and count |
| Generation.NextGenerationRule | pages/index.tsx:55-61 | a cell is alive next iff it has exactly 3 live neighbors, or it is alive and has exactly 2 (stated on the reference neighbor set) |
| Generation.NextGenerationLocal | pages/index.tsx:54 | each new cell depends only on the old grid's 3 x 3 block around it |
| Generation.AllDeadStaysDead | pages/index.tsx:51-64 | a grid with no live cell steps to the all-dead grid |
| Generation.LonelyCellDies | pages/index.tsx:55-57 | a live cell with no live neighbor dies |
| Generation.FullCornerSurvives | pages/index.tsx:42-57 | a live corner whose three neighbors are alive has a count of exactly 3 and survives |
| Generation.HorizontalCounts | pages/index.tsx:35-48 | around a horizontal bar the counts are 2 at the centre, 1 at the ends, 3 above and below the centre, and never 3 elsewhere |
| Generation.VerticalCounts | pages/index.tsx:35-48 | around a vertical bar the counts are 2 at the centre, 1 at the ends, 3 left and right of the centre, and never 3 elsewhere |
| Generation.HorizontalToVertical | pages/index.tsx:51-64 | an interior horizontal bar of three steps to the vertical bar through the same centre |
| Generation.VerticalToHorizontal | pages/index.tsx:51-64 | an interior vertical bar of three steps to the horizontal bar through the same centre |
| Generation.BlinkerPeriodTwo | pages/index.tsx:51-64 | the blinker changes at every step and is back after two |
| Controller.Simulation.constructor | pages/index.tsx:11-16 | the initial state is an all-dead grid, paused, generation 0 and an interval of 100 ms |
| Controller.Simulation.Toggle | pages/index.tsx:67-72 | while running the grid is unchanged; while paused the grid becomes the toggled grid; generation, running flag and interval never change |
| Controller.Simulation.Clear | pages/index.tsx:28-32 | the grid becomes the all-dead grid and generation becomes 0; running flag and interval unchanged |
| Controller.Simulation.Randomize | pages/index.tsx:19-25 | the grid becomes the seeded grid and generation becomes 0; running flag and interval unchanged |
| Controller.Simulation.PlayPause | pages/index.tsx:114 | the running flag is negated and nothing else changes |
| Controller.Simulation.SetSpeed | pages/index.tsx:130-135 | the interval becomes the slider value; grid, generation and running flag unchanged |
| Controller.Simulation.Tick | pages/index.tsx:75-87 | while running the grid becomes its next generation and generation goes up by exactly 1; while paused nothing changes |
| Controller.Simulation.LiveCellCount | pages/index.tsx:108 | the header count is the number of live cells and at most 50 x 50 |
| Controller.ToggleTwice | pages/index.tsx:67-72 | two toggles of the same cell leave grid, generation, running flag and interval as they were, whether paused or running |

## Left out

- Rendering (the JSX, `Head`, the styles, the cell click wiring and the rules text) is not modelled. It only draws the state and sends the commands above.
- The `setInterval`/`clearInterval` timing and the React effect lifecycle are not modelled. A tick is the explicit method `Tick`, and it does nothing unless running, because the page arms the timer only while `isRunning` is true and clears it when that changes.
- The mount effect that calls `initializeRandom` on start-up is not a separate member. A host models it by calling `Randomize` after the constructor.
- `Math.random() > 0.7` is not modelled. The per-cell coin flips are the parameter `draw` of `SeededGrid` and `Randomize`.
- The interval label `Math.round(1000/speed)` is not modelled. It is floating-point display only and changes no state.
- Controller.Simulation.SetSpeed: the value is required to lie in 50–500. Nothing in the engine checks or clamps it; the slider's own range guarantees it.
- React's batching of `setGrid` and `setGeneration` inside one tick is modelled as a single atomic method, which is what the two functional updates amount to.
