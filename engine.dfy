/**
 * The state holder of contribution-calendar.tsx: the grid, the Running/Stopped
 * flag, the generation counter, the pattern and its state, the paused baseline
 * and the active title letter, with the frame scheduler `animate` as `Tick(now)`
 * and the transitions the title letters trigger.
 */
module Engine {
  import opened GridBuffer
  import opened Wrappers
  import opened Patterns
  import Life
  import Rule30

  /** Milliseconds per frame (`animationSpeed`; its setter is never called). */
  const AnimationSpeed: int := 150

  /** Generations before auto-stopping (`maxGenerations`; its setter is never called). */
  const MaxGenerations: int := 500

  class ContributionCalendar {
    var grid: Grid
    var isRunning: bool
    var generation: int
    var currentPattern: Pattern
    var patternState: PatternState
    /** `lastUpdateTimeRef`: the time of the last attempted frame, in whole milliseconds. */
    var lastUpdate: int
    /** The grid to restore when the active letter is clicked again. */
    var baselineGrid: Option<Grid>
    var activeLetterIndex: Option<int>
    var showRealData: bool

    /** The grids keep their shape, the generation never passes the cap, and while
        Rule 30 runs its middle row holds only 0 and 1. */
    ghost predicate Valid()
      reads this
    {
      Shaped(grid) && 0 <= generation <= MaxGenerations
      && (baselineGrid.Some? ==> Shaped(baselineGrid.value))
      && (isRunning && currentPattern == Rule30 ==> Rule30.MiddleBinary(grid))
    }

    /** The component as mounted, stopped on Game of Life; `initial` is the grid its
        mount effects installed (a random grid, or the fetched calendar). */
    constructor (initial: Grid)
      requires Shaped(initial)
      ensures Valid()
      ensures grid == initial && !isRunning && generation == 0 && currentPattern == GameOfLife
      ensures patternState == NoState && lastUpdate == 0
      ensures baselineGrid == None && activeLetterIndex == None && showRealData
    {
      grid := initial;
      isRunning := false;
      generation := 0;
      currentPattern := GameOfLife;
      patternState := NoState;
      lastUpdate := 0;
      baselineGrid := None;
      activeLetterIndex := None;
      showRealData := true;
    }

    /** `changePattern`: switch pattern, restart the generation count, clear the pattern
        state and install the pattern's initial grid; Running/Stopped is left alone. */
    method ChangePattern(newPattern: Pattern, random: Grid)
      requires Valid() && Shaped(random) && Binary(random)
      modifies this
      ensures Valid()
      ensures currentPattern == newPattern && generation == 0 && patternState == NoState
      ensures grid == InitialGrid(newPattern, random)
      ensures isRunning == old(isRunning) && lastUpdate == old(lastUpdate)
      ensures baselineGrid == old(baselineGrid) && activeLetterIndex == old(activeLetterIndex)
      ensures showRealData == old(showRealData)
    {
      currentPattern := newPattern;
      generation := 0;
      patternState := NoState;
      if newPattern == GameOfLife || newPattern == Noise {
        grid := random;
      } else if newPattern == Rule30 {
        var newGrid := Empty();
        newGrid := Set(newGrid, Rows / 2, Cols / 2, 1);
        grid := newGrid;
      } else if newPattern == Image {
        // loading the image is left to the host
        grid := Empty();
      } else {
        grid := Empty();
      }
    }

    /** `resetGrid`: stop and clear everything the pattern accumulated. */
    method ResetGrid()
      requires Valid()
      modifies this
      ensures Valid()
      ensures !isRunning && grid == Empty() && generation == 0 && patternState == NoState
      ensures currentPattern == old(currentPattern) && lastUpdate == old(lastUpdate)
      ensures baselineGrid == old(baselineGrid) && activeLetterIndex == old(activeLetterIndex)
      ensures showRealData == old(showRealData)
    {
      isRunning := false;
      grid := Empty();
      generation := 0;
      patternState := NoState;
    }

    /** `randomizeGrid`: stop and install a fresh random 0/1 grid. */
    method RandomizeGrid(random: Grid)
      requires Valid() && Shaped(random) && Binary(random)
      modifies this
      ensures Valid()
      ensures !isRunning && grid == random && generation == 0 && patternState == NoState
      ensures currentPattern == old(currentPattern) && lastUpdate == old(lastUpdate)
      ensures baselineGrid == old(baselineGrid) && activeLetterIndex == old(activeLetterIndex)
      ensures showRealData == old(showRealData)
    {
      isRunning := false;
      grid := random;
      generation := 0;
      patternState := NoState;
    }

    /** `handleAnimatedLetterClick`. When stopped, save the grid as the baseline, switch to
        the letter's pattern and run (the effect that starts the frame loop takes `now`
        as the clock reference). When running and the active letter is clicked again,
        stop and restore the baseline. Otherwise switch pattern and keep running. */
    method HandleLetterClick(letterIndex: int, now: int, random: Grid)
      requires Valid() && Shaped(random) && Binary(random)
      modifies this
      ensures Valid() && !showRealData
      ensures !old(isRunning) ==>
        && baselineGrid == Some(old(grid))
        && currentPattern == LetterPattern(letterIndex) && grid == InitialGrid(currentPattern, random)
        && isRunning && generation == 0 && patternState == NoState
        && activeLetterIndex == Some(letterIndex) && lastUpdate == now
      ensures old(isRunning) && old(activeLetterIndex) == Some(letterIndex) ==>
        && !isRunning && activeLetterIndex == None
        && grid == (if old(baselineGrid).Some? then old(baselineGrid).value else old(grid))
        && currentPattern == old(currentPattern) && generation == old(generation)
        && patternState == old(patternState) && baselineGrid == old(baselineGrid) && lastUpdate == old(lastUpdate)
      ensures old(isRunning) && old(activeLetterIndex) != Some(letterIndex) ==>
        && isRunning && activeLetterIndex == Some(letterIndex)
        && currentPattern == LetterPattern(letterIndex) && grid == InitialGrid(currentPattern, random)
        && generation == 0 && patternState == NoState
        && baselineGrid == old(baselineGrid) && lastUpdate == old(lastUpdate)
    {
      showRealData := false;
      var newPattern := LetterPattern(letterIndex);

      if !isRunning {
        baselineGrid := Some(grid);
        ChangePattern(newPattern, random);
        isRunning := true;
        activeLetterIndex := Some(letterIndex);
        lastUpdate := now;
        return;
      }

      if activeLetterIndex == Some(letterIndex) {
        isRunning := false;
        if baselineGrid.Some? {
          grid := baselineGrid.value;
        }
        activeLetterIndex := None;
        return;
      }

      ChangePattern(newPattern, random);
      activeLetterIndex := Some(letterIndex);
    }

    /** `animate`, called by the frame pump while running. A step is attempted only when
        more than AnimationSpeed milliseconds have passed; the clock reference then keeps
        the remainder. A Life step that changes nothing stops the engine and keeps the
        grid; so does reaching the generation cap; otherwise the new grid is committed
        and the generation advances by exactly one. */
    method Tick(now: int, inputs: FrameInputs)
      requires Valid() && WellFormed(inputs)
      modifies this
      ensures Valid()
      ensures currentPattern == old(currentPattern) && baselineGrid == old(baselineGrid)
      ensures activeLetterIndex == old(activeLetterIndex) && showRealData == old(showRealData)
      ensures !old(isRunning) || now - old(lastUpdate) <= AnimationSpeed ==>
        && grid == old(grid) && isRunning == old(isRunning) && generation == old(generation)
        && patternState == old(patternState) && lastUpdate == old(lastUpdate)
      ensures old(isRunning) && now - old(lastUpdate) > AnimationSpeed ==>
        && lastUpdate == now - (now - old(lastUpdate)) % AnimationSpeed
        && 0 <= now - lastUpdate < AnimationSpeed
        && var res := ExecutePattern(old(grid), currentPattern, old(patternState), inputs);
           && patternState == res.newState
           && if currentPattern == GameOfLife && !res.hasChanged then
                !isRunning && grid == old(grid) && generation == old(generation)
              else if old(generation) >= MaxGenerations then
                !isRunning && grid == old(grid) && generation == old(generation)
              else
                isRunning && grid == res.newGrid && generation == old(generation) + 1
    {
      if !isRunning {
        return;
      }
      var elapsed := now - lastUpdate;
      if elapsed > AnimationSpeed {
        lastUpdate := now - elapsed % AnimationSpeed;
        var res := RunPattern(grid, currentPattern, patternState, inputs);
        patternState := res.newState;
        if currentPattern == GameOfLife && !res.hasChanged {
          isRunning := false;
          return;
        }
        if generation >= MaxGenerations {
          isRunning := false;
          return;
        }
        generation := generation + 1;
        grid := res.newGrid;
      }
    }
  }

  /** `statusText`. "Running" exactly while running. The "Stable (All Dead)" branch can
      never be taken: the "Empty Grid" test before it is weaker and catches every such grid. */
  function StatusText(isRunning: bool, currentPattern: Pattern, grid: Grid, generation: int): (s: string)
    requires Shaped(grid)
    ensures s == "Running" <==> isRunning
    ensures s != "Stable (All Dead)"
    ensures s == "Empty Grid" <==> !isRunning && currentPattern == GameOfLife && !HasLive(grid)
    ensures s == "Stable" <==>
      !isRunning && currentPattern == GameOfLife && HasLive(grid) && generation > 0 && Life.LifeNext(grid) == grid
    ensures s == "Max Generations Reached" ==> !isRunning && generation >= MaxGenerations
    ensures s == "Paused" ==> !isRunning && generation < MaxGenerations
    ensures s in {"Running", "Empty Grid", "Stable", "Max Generations Reached", "Paused"}
  {
    if isRunning then "Running"
    else if currentPattern == GameOfLife && !HasLive(grid) then "Empty Grid"
    else if currentPattern == GameOfLife && generation > 0 && !HasLive(grid) then "Stable (All Dead)"
    // `executePattern(grid, currentPattern, patternState).hasChanged` for Life
    else if currentPattern == GameOfLife && generation > 0 && !(Life.LifeNext(grid) != grid) then "Stable"
    else if generation >= MaxGenerations then "Max Generations Reached"
    else "Paused"
  }
}
