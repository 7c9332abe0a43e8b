/**
 The page's simulation state (`grid`, `isRunning`, `generation`, `speed`)
 and the commands that replace it: toggle a cell, clear, randomize,
 play/pause, set the interval, and the timer tick that advances one
 generation while running.
 */
module Controller {
  import opened LifeGrid
  import opened Generation

  /** Bounds of the interval slider, in milliseconds. */
  const MinSpeed: int := 50
  const MaxSpeed: int := 500
  /** The interval the page starts with. */
  const InitialSpeed: int := 100

  class Simulation {
    var grid: Grid
    var running: bool
    var generation: nat
    /** Milliseconds between ticks while running. */
    var speed: int

    ghost predicate Valid()
      reads this
    {
      WellFormed(grid) && MinSpeed <= speed <= MaxSpeed
    }

    /**
     The page's initial state: an all-dead grid, paused, generation 0,
     interval 100 ms. The mount-time randomization is a separate call
     of Randomize by the host.
     */
    constructor ()
      ensures Valid()
      ensures grid == EmptyGrid() && !running && generation == 0 && speed == InitialSpeed
    {
      grid := EmptyGrid();
      running := false;
      generation := 0;
      speed := InitialSpeed;
    }

    /** `toggleCell`: flip cell (x, y), but only while paused. */
    method Toggle(x: int, y: int)
      requires Valid()
      modifies this
      ensures Valid()
      ensures grid == if old(running) then old(grid) else Toggled(old(grid), x, y)
      ensures running == old(running) && generation == old(generation) && speed == old(speed)
    {
      if running {
        return;
      }
      ToggledWellFormed(grid, x, y);
      grid := Toggled(grid, x, y);
    }

    /** `clearGrid`: all cells dead, generation back to 0. */
    method Clear()
      requires Valid()
      modifies this
      ensures Valid()
      ensures grid == EmptyGrid() && generation == 0
      ensures running == old(running) && speed == old(speed)
    {
      grid := EmptyGrid();
      generation := 0;
    }

    /**
     `initializeRandom`: a freshly drawn grid, generation back to 0;
     `draw(x, y)` is the coin flip made for cell (x, y).
     */
    method Randomize(draw: (int, int) -> bool)
      requires Valid()
      modifies this
      ensures Valid()
      ensures grid == SeededGrid(draw) && generation == 0
      ensures running == old(running) && speed == old(speed)
    {
      grid := SeededGrid(draw);
      generation := 0;
    }

    /** The play/pause button: negate `isRunning` and nothing else. */
    method PlayPause()
      requires Valid()
      modifies this
      ensures Valid()
      ensures running == !old(running)
      ensures grid == old(grid) && generation == old(generation) && speed == old(speed)
    {
      running := !running;
    }

    /** The interval slider: store the chosen value as it is. */
    method SetSpeed(ms: int)
      requires Valid()
      requires MinSpeed <= ms <= MaxSpeed
      modifies this
      ensures Valid()
      ensures speed == ms
      ensures grid == old(grid) && running == old(running) && generation == old(generation)
    {
      speed := ms;
    }

    /**
     One firing of the interval timer. The timer is armed only while
     running, so a tick while paused changes nothing; otherwise the grid
     becomes its next generation and the counter goes up by one.
     */
    method Tick()
      requires Valid()
      modifies this
      ensures Valid()
      ensures old(running) ==> grid == NextGeneration(old(grid)) && generation == old(generation) + 1
      ensures !old(running) ==> grid == old(grid) && generation == old(generation)
      ensures running == old(running) && speed == old(speed)
    {
      if !running {
        return;
      }
      grid := NextGeneration(grid);
      generation := generation + 1;
    }

    /** The header's live-cell count. */
    method LiveCellCount() returns (n: nat)
      requires Valid()
      ensures n == LiveCells(grid)
      ensures n <= GridSize * GridSize
    {
      LiveCellsBounded(grid);
      n := LiveCells(grid);
    }
  }

  /**
   A paused simulation that toggles the same cell twice is back where it
   started, generation and interval included; a running one ignores both toggles.
   */
  method ToggleTwice(s: Simulation, x: int, y: int)
    requires s.Valid()
    modifies s
    ensures s.Valid()
    ensures s.grid == old(s.grid) && s.generation == old(s.generation) && s.running == old(s.running) && s.speed == old(s.speed)
  {
    s.Toggle(x, y);
    s.Toggle(x, y);
    ToggledTwice(old(s.grid), x, y);
  }
}
