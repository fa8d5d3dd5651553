# Game of Life engine, in Dafny

This project models the simulation engine of a browser Game of Life. Several
rendering frontends (canvas, lit-element, React, Vue) share that engine. The
model covers the following parts:

- **The rule evaluator** (`Game.getNextCellState`). It counts the Alive cells
  among the eight neighbours of a cell. Positions off the grid read as empty.
  It then applies Conway's rule: a Dead cell with exactly 3 Alive neighbours is
  born, and an Alive cell with 2 or 3 survives.
- **The whole-grid advance.** Every cell is recomputed from the same
  pre-advance snapshot.
- **The `Game` store.** It holds one `Life` record `{state, isRunning, interval}`.
  Commands are partial records, merged field by field into the current record
  by a `scan`. `setInterval`, `setState`, `run` and `stop` each push one command.
  A timer tick pushes an advanced grid, and only while the game is running.
- **The stand-alone loop of `src/index.tsx`.** It has its own copy of the rule,
  and a generation stream whose value `i` is generation `i`.
- **The React controls.** The speed slider maps a level to an interval. The
  Play/Pause button calls `stop` or `run`.
- **`MainController`.** It derives the column and row counts from the scene's
  pixel size and creates the game, paused.
- **The `RenderModes` enumeration.** This covers its labels, its renderer
  mapping and `asArray`.

Modules and files:

| file | module | models |
|---|---|---|
| cells.dfy | `Cells` | cell states, grids, the `(state[x] \|\| [])[y]`, `cell \|\| 0` and `reduce` idioms |
| rules.dfy | `GameRules` | `Game.getNextCellState`, the `map`/`map` advance, generations |
| store.dfy | `GameStore` | `Life`, partial-record commands, the merge fold, the `Game` class |
| stream.dfy | `LifeStream` | `src/index.tsx`: its rule copy, `getLifeState$`, the size arithmetic of `main` |
| controls.dfy | `Controls` | `src/renderers/react/Controls.tsx` |
| controller.dfy | `Controller` | `src/controllers/MainController.ts` |
| render_modes.dfy | `RenderModes` | `src/types/RenderModes.ts` |

A grid is `seq<seq<CellState>>`, indexed `g[x][y]`: the outer index is the column
and the inner index is the row, as in the source. Columns may have different
lengths. The neighbour lookup checks each column's own length, just as
`(state[x] || [])[y]` does.

The `CellStates` enum file is not part of this model. The sum
`acc + (cell || 0)` only counts neighbours if Alive is 1 and Dead is 0. The model
takes that encoding (`Cells.Weight`). `AliveNeighboursIsCardinality` then proves
that the fold equals the number of in-range Alive cells at distance 1.

The constants `CELL_SIZE`, `SPEED_INTERVAL`, `SPEED_RANGE_MAX_VALUE` and
`SPEED_RANGE_DEFAULT_VALUE` come from a constants file that is not part of this
model, so they are parameters. The cell size is positive and the speed interval
is non-negative. `src/index.tsx` declares its own `CELL_SIZE = 10`, and
`LifeStream.CELL_SIZE` uses it. Pixel sizes are natural numbers.

The speed slider does not clamp its level into the slider's range before
converting it: `Controls.NoClampingAboveMaximum` proves that levels `MAX + d` and
`MAX - d` give the same interval.

## Model

| member | source | states |
|---|---|---|
| `Cells.SumFrom` | src/core/Game.ts:41 | the `reduce` adds at most one per element: the total lies between the seed and the seed plus the number of cells |
| `GameRules.AliveNeighbours` | src/core/Game.ts:32-41 | the neighbour count is at most 8 |
| `GameRules.SumCountsAlive` | src/core/Game.ts:32-41 | folding the weights of distinct positions gives the number of in-range Alive cells among them |
| `GameRules.AliveNeighboursIsCardinality` | src/core/Game.ts:32-41 | the count equals the size of the set of in-range Alive cells at Chebyshev distance 1: off-grid positions and the centre never count |
| `GameRules.AliveNeighboursUnrolled` | src/core/Game.ts:32-41 | the fold is the sum of the eight guarded lookups |
| `GameRules.NextCellState` | src/core/Game.ts:23-57 | a Dead cell becomes Alive iff it has exactly 3 Alive neighbours; an Alive cell stays Alive iff it has 2 or 3 |
| `GameRules.Advance` | src/core/Game.ts:86-93 | the advanced grid has the same number of columns and each column its length; every cell is the rule applied to the pre-advance snapshot |
| `GameRules.AdvanceIsLocal` | src/core/Game.ts:86-92 | a cell's next state depends only on the snapshot's 3 by 3 block around it, so no evaluation order can matter |
| `GameRules.GenerationKeepsShape` | src/index.tsx:56-69 | every generation keeps the starting grid's shape |
| `GameRules.BlinkerOscillates` | src/core/Game.ts:23-57 | on a 3 by 3 grid the horizontal blinker turns vertical and back: period 2 |
| `GameStore.MergeOverwritesCarriedFields` | src/core/Game.ts:63-66 | `{...life, ...command}` takes each field from the command when it carries it and keeps the old value otherwise |
| `GameStore.MergeIdempotent` | src/core/Game.ts:65 | pushing the same command twice equals pushing it once (so `run` and `stop` are idempotent) |
| `GameStore.MergeCombine` | src/core/Game.ts:65 | two commands in a row act as one command in which the later fields win |
| `GameStore.ReplaySkipsEmpty` | src/core/Game.ts:60-66 | empty commands, including the `{}` the subject starts with, never change the folded state |
| `GameStore.Game.constructor` | src/core/Game.ts:59-67 | the store starts with the initial state, folded with the subject's initial `{}` |
| `GameStore.Game.Push` | src/core/Game.ts:63-66 | pushing a command merges it into the current state and keeps the state equal to the fold of the log |
| `GameStore.Game.SetInterval` | src/core/Game.ts:101-103 | sets the interval; the grid and the running flag are unchanged |
| `GameStore.Game.SetState` | src/core/Game.ts:105-107 | replaces the grid; the running flag and the interval are unchanged |
| `GameStore.Game.Run` | src/core/Game.ts:109-111 | sets the running flag; the grid and interval are unchanged |
| `GameStore.Game.Stop` | src/core/Game.ts:113-115 | clears the running flag; the grid and interval are unchanged |
| `GameStore.Game.Tick` | src/core/Game.ts:79-95 | a tick advances the grid one generation iff the game is running, changes nothing else, and changes nothing at all when stopped |
| `LifeStream.NextCellState` | src/index.tsx:73-107 | this copy of the rule agrees with `Game.getNextCellState` on every grid and in-range cell |
| `LifeStream.Step` | src/index.tsx:57-67 | frame 0 passes the seed through; every later frame is one advance of the previous grid |
| `LifeStream.EmissionsAreGenerations` | src/index.tsx:50-71 | value `i` of `getLifeState$` is generation `i` of the initial grid |
| `LifeStream.FirstEmissionIsInitial` | src/index.tsx:57-59 | the first value of the stream is the initial grid, unchanged |
| `LifeStream.EmissionsKeepShape` | src/index.tsx:60-61 | every value of the stream has the initial grid's shape |
| `LifeStream.MainGridSize` | src/index.tsx:22-25 | the columns are `width div 10` and the rows `height div 10 - 10` |
| `Controls.SpeedLevelToInterval` | src/renderers/react/Controls.tsx:52-54 | the interval is zero (fastest) iff the level is the maximum or the speed step is zero |
| `Controls.HigherLevelIsNotSlower` | src/renderers/react/Controls.tsx:53 | up to the maximum, a higher level never gives a longer interval |
| `Controls.NoClampingAboveMaximum` | src/renderers/react/Controls.tsx:53 | the level is not clamped: `MAX + d` and `MAX - d` give the same interval |
| `Controls.OnSpeedChange` | src/renderers/react/Controls.tsx:44-56 | moving the slider sets the game's interval from the level and leaves the grid and running flag alone |
| `Controls.OnPlayPauseClick` | src/renderers/react/Controls.tsx:30-34 | the button calls `stop` when shown running and `run` otherwise, so the running flag becomes the opposite of what was shown |
| `Controller.ColumnsCount` | src/controllers/MainController.ts:25 | `columns * CELL_SIZE <= width < (columns + 1) * CELL_SIZE` |
| `Controller.RowsCount` | src/controllers/MainController.ts:27-28 | rows are `height div CELL_SIZE - 10`, negative exactly when the height is under ten cells (no guard) |
| `Controller.InitialIntervalOnSliderScale` | src/controllers/MainController.ts:30-36 | the game starts paused with `SPEED_RANGE_DEFAULT_VALUE * SPEED_INTERVAL`, the slider's interval at level `MAX - DEFAULT` |
| `Controller.MainController.constructor` | src/controllers/MainController.ts:20-44 | the game starts paused with the default interval and a grid built from the computed counts, and the renderer gets the same counts |
| `RenderModes.FromOrdinal` | src/types/RenderModes.ts:11-16 | exactly the numbers 0 to 3 name a mode, and each names the mode with that ordinal |
| `RenderModes.MapToLabelInjective` | src/types/RenderModes.ts:25-38 | the four labels are pairwise distinct; the switch is exhaustive, so its default is unreachable |
| `RenderModes.MapToRendererBijective` | src/types/RenderModes.ts:40-56 | each renderer class comes from exactly one mode; the switch is exhaustive |
| `RenderModes.ParseInt` | src/types/RenderModes.ts:21 | a key parses to a number iff it starts with a digit |
| `RenderModes.IntegerKeys` | src/types/RenderModes.ts:19-23 | the `map`/`filter` chain never yields more values than there are keys |
| `RenderModes.NoDigitKeys` | src/types/RenderModes.ts:22 | keys that are not numbers are all dropped |
| `RenderModes.AsArrayIsOrdinals` | src/types/RenderModes.ts:11-23 | `asArray` is `[0, 1, 2, 3]`, the ordinals in declaration order, with every name key dropped |

## Left out

- Timers are not modelled: `timer(0, interval)`, the `switchMap` that restarts the timer on each change of the running flag or the interval, and `distinctUntilChanged`. A tick is the explicit call `Game.Tick`, and tick cadence is not modelled.
- `shareReplay`, `merge` with `ignoreElements`, and subscriber multicast are not modelled. `Game.Current()` is the latest value of `life$`.
- The model assumes `life$` already has a subscriber when the first command is pushed. `commands$` is a `BehaviorSubject`, and the `scan` only starts folding when `life$` is first subscribed. Commands pushed before that replace one another in the subject, and only the last one is merged into the initial state. Every caller in the source subscribes before it pushes.
- `updates$` in `src/core/Game.ts` is not shared. Each subscriber of `life$` starts its own timer chain, and each chain pushes its own advanced grid. The React `Grid` and `Controls` components both subscribe, so the grid appears to advance twice per interval in that frontend. This is read from the code, not observed. `Game.Tick` models a single timer emission.
- `animationFrameScheduler` in `getLifeState$` is not modelled. The stream is modelled as its first `n` values.
- `DisposeBag`, `takeUntil` and every subscription and unsubscription are left out, because they are scheduling, not state.
- `Game.getRandomLifeState` is not part of this model, and neither is `Math.random() > 0.75` seeding. Both are nondeterministic. The controller takes the generator as a function parameter.
- `pause`, `play`, `toggleCell`, `setSpeed`, `resetLife`, `setLife`, `isRunning$` and `speedLevel$` are called by renderers but are not defined in `src/core/Game.ts`, so they are not modelled.
- The react `Grid` click handler calls `pause` then `toggleCell({x: cellIndex, y: rowIndex})` over a table whose rows are the outer array. This looks transposed relative to `state[x][y]`, but it cannot be checked without `toggleCell`.
- The "Apply random state" button is not modelled, because it depends on the random generator.
- The Controls component's hook state (`useState`, `useEffect`) is not modelled. `OnPlayPauseClick` takes the flag the button shows as a parameter.
- All drawing and DOM code is left out: the canvas, lit-element, React and Vue renderers, `applyStyles`, `main`, `main2`, `MainController.initScene`, and the construction of renderer objects in `mapToRenderer`. `devicePixelRatio` and sub-pixel offsets are floating-point pixel math.
- `getLifeRenderer` in `src/index.tsx` is not modelled. It switches over a `RenderModes.Table` member that the shown enum does not declare.
- `assertNever` is not modelled as behaviour. Each switch over the enum is an exhaustive `match` with no default branch.
- Pixel sizes from `getBoundingClientRect` can be fractional. The model takes natural-number widths and heights.
- The interval is a JavaScript number. The model uses an unbounded integer.
- `RenderModes.ParseInt`: models `parseInt(key, 10)` only on keys without leading blanks or a sign, which covers every key of the enum object.
- `Controller.MainController.constructor`: states the grid's dimensions only as the arguments passed to the generator, because `getRandomLifeState` is not part of this model.
