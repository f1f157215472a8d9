/**
 * The pattern names, the per-pattern state, and the `executePattern` dispatch
 * of contribution-calendar.tsx.
 */
module Patterns {
  import opened GridBuffer
  import Life
  import Rain
  import Rule30

  /** The eight patterns, plus the value a letter with no pattern yields (`undefined`). */
  datatype Pattern = GameOfLife | Ripple | Wave | Rain | Spiral | Noise | Rule30 | Image | Unknown

  /** One expanding ring of the Ripple pattern. */
  datatype RippleRing = RippleRing(centerRow: int, centerCol: int, radius: real, maxRadius: real)

  /** The pattern-specific state: empty, the time counter of Wave and Spiral, or Ripple's rings. */
  datatype PatternState = NoState | Clock(time: int) | Ripples(ripples: seq<RippleRing>)

  /** What one step returns: the new grid, whether it changed, and the new pattern state. */
  datatype StepResult = StepResult(newGrid: Grid, hasChanged: bool, newState: PatternState)

  /** The outcomes of everything a frame cannot compute itself: Rain's per-column spawn and
      clear choices, the grid Noise draws, and the output of the Ripple, Wave, Spiral and
      Image steps, which depend on floating-point geometry and on a decoded image. */
  datatype FrameInputs = FrameInputs(spawn: seq<bool>, clear: seq<bool>, noise: Grid, drawn: StepResult)

  predicate WellFormed(inputs: FrameInputs)
  {
    Rain.Choices(inputs.spawn, inputs.clear) && Shaped(inputs.noise) && Binary(inputs.noise)
    && Shaped(inputs.drawn.newGrid)
  }

  /** The letters of the clickable title, in order; the eighth letter has no pattern. */
  const LetterPatterns: seq<Pattern> := [GameOfLife, Noise, Wave, Spiral, Rule30, Rain, Ripple]

  /** `animateLetterPatterns[letterIndex]`. */
  function LetterPattern(letterIndex: int): (p: Pattern)
    ensures p == Unknown <==> !(0 <= letterIndex < 7)
    ensures p != Image
  {
    if 0 <= letterIndex < |LetterPatterns| then LetterPatterns[letterIndex] else Unknown
  }

  /** The dispatch. Life reports whether the grid changed; Ripple, Wave, Spiral, Rain,
      Noise and Rule 30 always report a change; Image reports what its sampler says; an
      unknown pattern returns the grid unchanged and reports no change. */
  function ExecutePattern(g: Grid, p: Pattern, state: PatternState, inputs: FrameInputs): (res: StepResult)
    requires Shaped(g) && WellFormed(inputs) && (p == Rule30 ==> Rule30.MiddleBinary(g))
    ensures Shaped(res.newGrid)
    ensures p == GameOfLife ==> (res.hasChanged <==> res.newGrid != g)
    ensures p == Unknown ==> res.newGrid == g && !res.hasChanged
    ensures p !in {GameOfLife, Image, Unknown} ==> res.hasChanged
    ensures p !in {Ripple, Wave, Spiral} ==> res.newState == state
  {
    match p
    case GameOfLife => var next := Life.LifeNext(g); StepResult(next, next != g, state)
    case Ripple => StepResult(inputs.drawn.newGrid, true, inputs.drawn.newState)
    case Wave => StepResult(inputs.drawn.newGrid, true, inputs.drawn.newState)
    case Rain => StepResult(Rain.RainNext(g, inputs.spawn, inputs.clear), true, state)
    case Spiral => StepResult(inputs.drawn.newGrid, true, inputs.drawn.newState)
    case Noise => StepResult(inputs.noise, true, state)
    case Rule30 => StepResult(Rule30.Rule30Next(g), true, state)
    case Image => StepResult(inputs.drawn.newGrid, inputs.drawn.hasChanged, state)
    case Unknown => StepResult(g, false, state)
  }

  /** `executePattern`, running the step methods. */
  method RunPattern(currentGrid: Grid, p: Pattern, state: PatternState, inputs: FrameInputs) returns (res: StepResult)
    requires Shaped(currentGrid) && WellFormed(inputs) && (p == Rule30 ==> Rule30.MiddleBinary(currentGrid))
    ensures res == ExecutePattern(currentGrid, p, state, inputs)
  {
    match p {
      case GameOfLife =>
        var newGrid, hasChanged := Life.LifeStep(currentGrid);
        res := StepResult(newGrid, hasChanged, state);
      case Rain =>
        var newGrid := Rain.RainStep(currentGrid, inputs.spawn, inputs.clear);
        res := StepResult(newGrid, true, state);
      case Rule30 =>
        var newGrid := Rule30.Rule30Step(currentGrid);
        res := StepResult(newGrid, true, state);
      case Noise =>
        res := StepResult(inputs.noise, true, state);
      case Ripple =>
        res := StepResult(inputs.drawn.newGrid, true, inputs.drawn.newState);
      case Wave =>
        res := StepResult(inputs.drawn.newGrid, true, inputs.drawn.newState);
      case Spiral =>
        res := StepResult(inputs.drawn.newGrid, true, inputs.drawn.newState);
      case Image =>
        res := StepResult(inputs.drawn.newGrid, inputs.drawn.hasChanged, state);
      case Unknown =>
        res := StepResult(currentGrid, false, state);
    }
  }

  /** The grid `changePattern` installs: a random 0/1 grid for Life and Noise, the
      single-cell seed for Rule 30, and an empty grid for every other pattern. */
  function InitialGrid(p: Pattern, random: Grid): (g: Grid)
    requires Shaped(random) && Binary(random)
    ensures Shaped(g) && Binary(g)
    ensures p == Rule30 ==> Rule30.MiddleBinary(g) && forall r, c :: 0 <= r < Rows && 0 <= c < Cols ==>
      (g[r][c] == 1 <==> r == Rule30.Mid && c == Cols / 2)
    ensures p !in {GameOfLife, Noise, Rule30} ==> forall r, c :: 0 <= r < Rows && 0 <= c < Cols ==> g[r][c] == 0
  {
    if p == GameOfLife || p == Noise then random
    else if p == Rule30 then Rule30.Seed()
    else Empty()
  }
}
