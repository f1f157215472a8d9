# Contribution calendar grid engine, in Dafny

A model of the animated contribution calendar: a 7 × 52 grid of counts that either
shows a real contribution calendar or runs one of several cellular and wave
patterns over the same grid.

- `grid_buffer.dfy` (module `GridBuffer`) holds the grid as a 7 × 52 sequence of rows,
  together with its cell update and its sum.
- `life.dfy` (`Life`) is Conway's Game of Life, B3/S23 without wraparound. Its
  `countNeighbors` and `gameOfLifeStep` loops are proved equal to a cell-level
  next-generation function.
- `rain.dfy` (`Rain`) is the Rain step: spawn, move from the bottom row up against the
  pre-step grid, then clear. The loop is proved equal to a cell-level function, and a
  lemma shows that a lone drop falls one row per step.
- `rule30.dfy` (`Rule30`) is the Rule 30 automaton on the middle row; the other rows
  shift right. It also holds the seed that `changePattern` installs.
- `patterns.dfy` (`Patterns`) holds the pattern names, the dispatch `executePattern`,
  the letter-to-pattern table and the initial grid of each pattern.
- `engine.dfy` (`Engine`) is the component state as a class:
  - pattern switching, reset and randomize;
  - the letter-click start/pause/switch protocol;
  - the throttled frame `animate`, with its two auto-stop rules;
  - the status line.
- `ingestion.dfy` (`Ingestion`) is the calendar ingestion of the contributions route:
  - keep the last 52 weeks and map day `d` of week `w` onto `grid[d][w]`, with a
    running total;
  - find the earliest and latest dates and the month labels (capped at 12);
  - apply the per-login manual override table, which never overwrites a non-zero cell.
- `square.dfy` (`Square`) is the intensity class of a calendar square.
- `wrappers.dfy` (`Wrappers`) holds `Option` and `Result`.

## Model

| member | source | states |
|---|---|---|
| GridBuffer.Empty | contribution-calendar.tsx:30-32 | a fresh grid is 7 × 52 and every cell is 0 |
| Life.CountNeighbors | contribution-calendar.tsx:69-90 | the loop over the eight directions returns the sum of the values of the in-range neighbours |
| Life.NeighborSumUnfolded | contribution-calendar.tsx:71-88 | the neighbour count is the sum over the 3 × 3 window less the centre, with off-grid positions counting 0 |
| Life.NeighborSumLocal | contribution-calendar.tsx:82-87 | no wraparound: two grids that agree on the in-range cells next to (r, c) give the same count there |
| Life.CornerNeighbors | contribution-calendar.tsx:82-87 | the corner (0, 0) sees only (0, 1), (1, 0) and (1, 1); nothing wraps in from the far edges |
| Life.LifeNext | contribution-calendar.tsx:96-105 | the next generation is all 0/1; a cell becomes 1 exactly when it holds 1 with 2 or 3 neighbours, or holds anything else with exactly 3 |
| Life.LifeStep | contribution-calendar.tsx:92-114 | the nested loop yields exactly the next generation, and `hasChanged` holds exactly when the new grid differs from the old |
| Life.BlockIsStill | contribution-calendar.tsx:92-114 | a 2 × 2 block anywhere on the grid is a still life: the step leaves it unchanged |
| Life.LoneCellDies | contribution-calendar.tsx:101-102 | a live cell with no live in-range neighbour dies |
| Life.StableStaysStable | contribution-calendar.tsx:361-364 | once a step changes nothing, any number of further steps changes nothing, so stopping on stability loses nothing |
| Rain.RainNext | contribution-calendar.tsx:178-206 | a drop moves down one row unless it lands on a cleared bottom cell; an old drop leaves its cell unless another arrives; other cells keep their value apart from spawning and clearing; the bottom row is zeroed exactly in the cleared columns; a spawn puts a drop in row 0 unless an old drop there leaves |
| Rain.RainStep | contribution-calendar.tsx:178-206 | the three loops (spawn, bottom-up move against the pre-step grid, clear) compute exactly the Rain step |
| Rain.DropFallsOneRowPerStep | contribution-calendar.tsx:189-197 | a lone drop in a column falls exactly one row per step while nothing spawns or clears in its column; it never advances two rows in one step |
| Rule30.Rule30Rule | contribution-calendar.tsx:257-259 | the table lookup on `(left << 2) \| (center << 1) \| right` yields a bit, which is 1 exactly when left differs from (center or right) |
| Rule30.Rule30Next | contribution-calendar.tsx:245-273 | the middle row stays 0/1 and keeps its two end cells; every other row shifts right by one with a 0 entering at column 0 |
| Rule30.Rule30Step | contribution-calendar.tsx:245-273 | the loops over the middle row and the other rows compute exactly the Rule 30 step |
| Rule30.Seed | contribution-calendar.tsx:457-460 | the Rule 30 start grid holds a single 1, at (3, 26) |
| Rule30.ZeroMiddleStaysZero | contribution-calendar.tsx:252-260 | an all-zero middle row stays all-zero |
| Rule30.SingleCellSpreads | contribution-calendar.tsx:252-260 | a single 1 at column k, away from the ends, becomes ones at k - 1, k and k + 1 |
| Rule30.SeedFirstStep | contribution-calendar.tsx:252-260 | from the seed, one step gives ones at columns 25 to 27 of the middle row and zeros elsewhere |
| Patterns.LetterPattern | contribution-calendar.tsx:482-490 | letters 0 to 6 map to Life, Noise, Wave, Spiral, Rule 30, Rain and Ripple; any other index gives no pattern; no letter gives Image |
| Patterns.ExecutePattern | contribution-calendar.tsx:324-348 | the result keeps the grid shape; Life reports a change exactly when the grid changed; an unknown pattern returns the grid unchanged with no change; Ripple, Wave, Rain, Spiral, Noise and Rule 30 always report a change; only Ripple, Wave and Spiral update the pattern state |
| Patterns.RunPattern | contribution-calendar.tsx:324-348 | the dispatch, running the Life, Rain and Rule 30 loops, returns what `ExecutePattern` specifies |
| Patterns.InitialGrid | contribution-calendar.tsx:450-479 | Life and Noise start from a random 0/1 grid, Rule 30 from the single-cell seed, and every other pattern from an empty grid |
| Engine.ContributionCalendar.constructor | contribution-calendar.tsx:39-49 | mounted stopped, on Game of Life, at generation 0, with empty pattern state, no baseline and no active letter |
| Engine.ContributionCalendar.ChangePattern | contribution-calendar.tsx:450-479 | switches pattern, installs its initial grid, resets the generation and the pattern state, and leaves running/stopped unchanged |
| Engine.ContributionCalendar.ResetGrid | contribution-calendar.tsx:436-441 | stops, clears the grid, and resets the generation and the pattern state |
| Engine.ContributionCalendar.RandomizeGrid | contribution-calendar.tsx:443-448 | stops, installs a random 0/1 grid, and resets the generation and the pattern state |
| Engine.ContributionCalendar.HandleLetterClick | contribution-calendar.tsx:492-518 | when stopped: save the grid as the baseline, switch pattern and start. When the active letter is clicked again: stop and restore the baseline. When another letter is clicked while running: switch pattern and keep running |
| Engine.ContributionCalendar.Tick | contribution-calendar.tsx:351-379 | see the note below the table |
| Engine.StatusText | contribution-calendar.tsx:547-559 | "Running" exactly while running; "Empty Grid" exactly for a stopped Life grid with no cell equal to 1; "Stable" exactly for a stopped Life grid past generation 0 with a live cell that the step leaves unchanged; the "Stable (All Dead)" branch is never taken; the label is always one of "Running", "Empty Grid", "Stable", "Max Generations Reached" and "Paused" |
| Ingestion.LastWeeks | app/api/contributions/route.ts:126 | keeps the last min(52, n) weeks, in their order |
| Ingestion.MappedGrid | app/api/contributions/route.ts:129-147 | the mapped grid is 7 × 52; with fewer than 52 weeks the trailing columns stay 0 |
| Ingestion.MapWeeks | app/api/contributions/route.ts:134-147 | the mapping loop puts the count of day d of week w (0 when missing) in cell (d, w), ignores days past the seventh, and its running total equals the grid sum |
| Ingestion.SingleContribution | app/api/contributions/route.ts:134-147 | weeks whose only non-zero day is (w0, d0) give a grid that is 0 everywhere except that cell, and a total equal to its count |
| Ingestion.MinOfIsLeast | app/api/contributions/route.ts:159 | the running minimum is absent only when there are no dates; otherwise it is one of the dates and not after any of them |
| Ingestion.MaxOfIsGreatest | app/api/contributions/route.ts:160 | the running maximum is absent only when there are no dates; otherwise it is one of the dates and not before any of them |
| Ingestion.AllDatesMembers | app/api/contributions/route.ts:156-162 | the scan visits exactly the dates of the kept days, and visits none exactly when no week has days |
| Ingestion.RangeOfDays | app/api/contributions/route.ts:152-162 | the scan's minimum and maximum are the earliest and latest kept days, and both are absent exactly when there are no days |
| Ingestion.DateRange | app/api/contributions/route.ts:152-162 | the nested scan leaves the earliest and the latest date of the kept days, both absent exactly when there are no days |
| Ingestion.MonthsFromIndex | app/api/contributions/route.ts:170-173 | the i-th label's month is i months after the start month |
| Ingestion.MonthLabels | app/api/contributions/route.ts:165-174 | the loop emits one label per month, from the start date's month through the end date's month, and none without a date range |
| Ingestion.MonthLabelsCoverRange | app/api/contributions/route.ts:166-173 | for a non-empty range the labelled months start at the start month, end at the end month and advance one month at a time |
| Ingestion.Capped | app/api/contributions/route.ts:280 | at most 12 labels, a prefix of the full list, and all of it when it is already short enough |
| Ingestion.CappedLabelsDistinct | app/api/contributions/route.ts:280 | after the cap no month name appears twice |
| Ingestion.FindDay | app/api/contributions/route.ts:257 | `findIndex` over one week's days: the first position with the date, or -1 when there is none |
| Ingestion.FindWeek | app/api/contributions/route.ts:252-254 | `findIndex` over the weeks: the first week holding a day with the date, or -1 when there is none |
| Ingestion.Target | app/api/contributions/route.ts:252-258 | an override date lands only on an in-range cell whose day has that date; a date not among the kept days lands nowhere; when all weeks have at most 7 days, a date among them always lands |
| Ingestion.ApplyOverride | app/api/contributions/route.ts:259-267 | an override whose target holds 0 writes its count there and changes nothing else; any other override leaves the grid as it was |
| Ingestion.ApplyOverrides | app/api/contributions/route.ts:250-270 | applying the entries in order never overwrites a non-zero cell and never touches a cell that no entry targets |
| Ingestion.OverridesKeepSum | app/api/contributions/route.ts:261-263 | the overrides raise the grid sum by exactly the reported `overridesApplied` |
| Ingestion.SettledIsFixed | app/api/contributions/route.ts:259-260 | a grid in which every target already holds a non-zero value (or the entry would write 0) is left unchanged |
| Ingestion.AppliedIsSettled | app/api/contributions/route.ts:259-263 | after one pass, every target holds a non-zero value or its entry writes 0 |
| Ingestion.OverridesIdempotent | app/api/contributions/route.ts:250-270 | applying the override table twice gives the same grid as applying it once |
| Ingestion.ApplyManualOverrides | app/api/contributions/route.ts:247-270 | the override loop produces the applied grid; its count is the sum of the applied entries; the total grows by that count |
| Ingestion.Ingest | app/api/contributions/route.ts:33-285 | see the note below the table |
| Ingestion.ManualOverridesEntries | app/api/contributions/route.ts:25-31 | only the login "ogvaibhavshukla" has corrections: three distinct dates, each with a positive count; every other login gets none |
| Square.IntensityClass | components/square.tsx:14-20 | the class of a count is the class of its level, where the level is the number of thresholds 1, 2, 4, 7 the count reaches |
| Square.ReachedMonotone | components/square.tsx:14-20 | a larger count reaches at least as many thresholds |
| Square.LevelMonotone | components/square.tsx:14-20 | more contributions never give a lighter square |
| Square.LevelBands | components/square.tsx:14-20 | the levels are the bands ≤ 0, 1, 2-3, 4-6 and ≥ 7, each an if-and-only-if |
| Square.ClassShowsLevel | components/square.tsx:14-20 | two counts get the same class exactly when they have the same level |

`Engine.ContributionCalendar.Tick` states:

- Nothing happens while stopped, or until more than 150 ms have passed.
- Otherwise the clock keeps the remainder of the elapsed time modulo 150 and the pattern
  state advances.
- A Life step that reports no change stops the engine and keeps the grid.
- So does a step at generation 500.
- Any other step commits the new grid and advances the generation by exactly one.
- The invariant holds throughout: the grid shape, 0 ≤ generation ≤ 500, and a 0/1
  middle row while Rule 30 runs.

`Ingestion.Ingest` states:

- A missing or empty login fails with `MissingLogin`.
- A non-array `weeks` fails with `UnexpectedResponse`.
- Otherwise, that is for a present login and an array of weeks, the call always
  succeeds, and the result holds:
  - the mapped grid with the login's overrides applied;
  - the earliest and latest dates;
  - the capped month labels;
  - the applied count;
  - a final total equal to the grid sum.
- A login without an override entry gets the plain mapped grid.
- Empty input gives an all-zero grid, no dates, no labels and a zero total.

## Left out

- Ripple, Wave, Spiral, Image: these steps use floating-point trigonometry, canvas
  pixels and random ripple spawns. Their results reach `Tick` as the parameter
  `FrameInputs.drawn`, so `ExecutePattern` states only their shape, their change flag
  and their state hand-over.
- Noise: the random grid it draws is the parameter `FrameInputs.noise`.
- Randomness in general is modelled as parameters:
  - `createRandomGrid` is the `random` argument of `ChangePattern`, `RandomizeGrid` and
    `HandleLetterClick`;
  - Rain's per-column spawn (probability 0.05) and clear (probability 0.3) are the
    boolean sequences `spawn` and `clear`.
- React scheduling is not modelled: `requestAnimationFrame`, stale closures, and the
  effect at contribution-calendar.tsx:381-405.
  - That effect depends on `animate`, which is rebuilt whenever `generation`,
    `currentPattern` or `patternState` changes. So while running, the effect re-runs
    after every committed step and after every pattern switch.
  - Each re-run resets `lastUpdateTimeRef` to the current time. In the program, the
    remainder that `animate` keeps is therefore lost after every committed step, and a
    switch while running restarts the clock.
  - Engine.ContributionCalendar.Tick does not capture that reset: it keeps the
    remainder after a committed step.
  - Engine.ContributionCalendar.HandleLetterClick sets `lastUpdate` only when it starts
    the engine. A switch while running keeps the old `lastUpdate` rather than
    restarting the clock.
  - `Tick` is a no-op while stopped, because the effect cancels pending frames.
- `performance.now()` is the integer parameter `now` in milliseconds. The model does
  not cover fractional milliseconds, nor negative elapsed times, for which JavaScript's
  `%` would differ from Dafny's.
- Engine.ContributionCalendar.Tick: the throttle is the source's strict `elapsed > 150`,
  not `≥`, and a step that stops the engine still advances the pattern state, as the
  step functions set it themselves.
- Rule30.Rule30Step: requires a 0/1 middle row, because the source's `<<`/`|` table
  index is only meaningful for bits. The engine invariant keeps the Rule 30 middle row
  0/1 from the seed on.
- Rain.RainNext: the move loop writes into a copy that already holds the spawned drops.
  So a spawn in a column whose row 0 already holds a drop is lost, and a drop on the
  bottom row stays until the clear choice picks its column. The contract states this
  written behaviour.
- The network fetch, the GitHub token check, HTTP status codes, JSON parsing,
  `console.log` output, the non-zero-day debug listing and `monthlyBreakdown` are not
  modelled. A response whose `weeks` is not an array is `weeks == None`.
- Committing a fetched calendar into the component's grid (`githubData`, `showRealData`
  rendering), the static month labels and all rendering are not modelled.
- Dates are (year, month, day) values. Date strings are assumed to be ISO `YYYY-MM-DD`,
  so two strings are equal exactly when their dates are.
- Time zones are not modelled. `new Date("YYYY-MM-DD")` parses a date-only string as
  UTC midnight, but `setDate(1)`, `setMonth`/`getMonth` and `toLocaleDateString` work
  in the local zone. West of UTC these can see the previous day's month. The model
  takes each day's own calendar month.
- Ingestion.Ingest: the override table is a sequence of entries per login rather than a
  JavaScript object. The model allows repeated dates, which an object literal cannot
  hold, and takes them in order as `Object.entries` would.
- Square.IntensityClass: counts are integers. A fractional count such as 1.5 falls
  through every band test in the source and gets "square alive-4"; the model does not
  cover that case.
- Square: the `alive`, `onClick` and `title` props and the rendered element are not
  modelled. The class depends only on the count.
