# Game of Life engine — a Dafny model

This project models the logic of an Angular implementation of Conway's Game
of Life on a torus. The Angular signals, dependency injection, templates and
timers are dropped. What is left is a cell map of 0/1 cells that is updated in
place, and a few small state machines.

What is modelled:

- **Tool functions** (`tool_functions.dfy`). `confine(num, range)` is the
  helper that maps an offset onto a grid axis. It is written on top of
  JavaScript's truncating `%` (`TruncRem`).
- **Grid** (`grid.dfy`). The definitions both revisions of the game-data
  service share:
  - the 0/1 cell map and the rectangularity predicate;
  - Conway's rule for one cell (`Rule`);
  - the single-cell toggle;
  - the four resize operations, as functions on cell maps.
- **Generation** (`generation.dfy`). What one tick of the current game-data
  service computes, as functions of the pre-tick map:
  - the nine-probe neighbour count, with the centre skipped by coordinate;
  - the next generation built from that count.

  An independent reference definition, "the live cells among the torus
  neighbours", is tied to the count by lemmas.
- **GameData** (`game_data.dfy`). The current game-data service as a class:
  - `cellMap` and the `nextCellMap` buffer;
  - the selected cell;
  - the tick rate;
  - the status message.

  `tick` is proved to compute `NextGeneration` of the pre-tick map. Every
  resize is proved to equal its function on cell maps.
- **LegacyGameData** (`legacy_game_data.dfy`). The older game-data service,
  whose count probes eight fixed directions with a one-step wrap. Lemmas
  relate it to the current one:
  - the two counts and the two next generations agree on maps of at least 2×2;
  - a concrete one-row map shows where they differ.
- **PatternCreation** (`pattern_creation.dfy`). The glider and lightweight
  spaceship:
  - the offset tables, proved to be quarter turns of each other;
  - stamping a pattern at the selected cell;
  - the per-pattern orientation cursors;
  - the armed/last-armed state.
- **Evolution** (`evolution.dfy`). Conway's rule at work on the current
  engine: a 2×2 block is a still life on every torus of at least 4×4, and a
  blinker has period exactly 2 on every torus of at least 5×5.
- **MapComponent** and **PatternsComponent** (`map_component.dfy`,
  `patterns_component.dfy`). The click, right-click, dialog and
  pattern-button rules, plus the tick-rate and info labels.

On the torus wrap, this model follows the code. `confine` is exact only
for offsets no further than one grid length below zero. For instance,
`confine(-6, 5)` is 1, where the modulus is 4 (`ConfineIsNotModulo`). The
engine itself only ever confines offsets of a few cells. So on a grid taller
and wider than the pattern's reach (2 cells for the glider, 4 for the
spaceship), every placed cell lands on its true torus position
(`PlacedIsToroidal`).

## Model

| member | source | states |
|---|---|---|
| ToolFunctions.TruncRem | src/app/services/tool-functions.service.ts:12-13 | JavaScript's `%` for a positive divisor: the remainder takes the sign of the dividend, lies strictly between `-b` and `b`, and equals the Euclidean remainder for non-negative dividends |
| ToolFunctions.Confine | src/app/services/tool-functions.service.ts:10-14 | for every integer offset and positive range the result lies in `[0, range)` |
| ToolFunctions.ConfineOfNatural | src/app/services/tool-functions.service.ts:13 | a non-negative offset is reduced modulo the range |
| ToolFunctions.ConfineOfSmallNegative | src/app/services/tool-functions.service.ts:11-12 | an offset in `[-range, 0)` lands on `range + num` |
| ToolFunctions.ConfineIsModulo | src/app/services/tool-functions.service.ts:10-14 | from `-range` upward the helper is the true modulus |
| ToolFunctions.ConfineOfLargeNegative | src/app/services/tool-functions.service.ts:12 | below `-range` the helper yields the magnitude of the truncated remainder of `range + num` |
| ToolFunctions.ConfineIsNotModulo | src/app/services/tool-functions.service.ts:12 | `confine(-6, 5)` is 1 while `-6 mod 5` is 4 |
| ToolFunctions.ConfineIsWrap | src/app/services/tool-functions.service.ts:10-14 | within one lap either side of the axis the helper adds or subtracts one range, or leaves the index alone |
| ToolFunctions.ConfineIdempotent | src/app/services/tool-functions.service.ts:10-14 | confining an already confined index changes nothing |
| Grid.Zeros | src/app/services/game-data.service.ts:81-88 | `rows` rows, each of `cols` cells, every cell dead |
| Grid.Rule | src/app/services/game-data.service.ts:132-148 | a cell is live next exactly when it has 3 live neighbours, or it is live and has 2 |
| Grid.Flip | src/app/services/game-data.service.ts:150-157 | the toggled map has the same shape, the selected cell changes value and every other cell keeps its value |
| Grid.FlipTwice | src/app/services/game-data.service.ts:150-157 | toggling the same cell twice restores the map |
| Grid.WithZeroRow | src/app/services/game-data.service.ts:167-170 | one row more: the old rows unchanged and a last row of `width` dead cells |
| Grid.WithoutLastRow | src/app/services/game-data.service.ts:172-179 | the old map without its last row, and the empty map unchanged |
| Grid.WithZeroColumn | src/app/services/game-data.service.ts:181-188 | the same rows, each one cell longer, its old cells kept and a dead cell last |
| Grid.WithoutLastColumn | src/app/services/game-data.service.ts:190-198 | the same rows, each non-empty one cut by its last cell, empty rows kept |
| Grid.RowRoundTrip | src/app/services/game-data.service.ts:167-179 | adding a dead row then removing the last row restores the map |
| Grid.ColumnRoundTrip | src/app/services/game-data.service.ts:181-198 | pushing a dead cell on every row then popping one from every row restores the map |
| Grid.ResizeKeepsRectangular | src/app/services/game-data.service.ts:167-198 | each of the four resizes keeps a rectangular map rectangular, with one row or column more or less (none less on an empty map or row) |
| Generation.RowHitsOfThree | src/app/services/game-data.service.ts:122-126 | the inner probe loop over three column indices sums the three probes |
| Generation.GridHitsOfThree | src/app/services/game-data.service.ts:121-127 | the outer probe loop over three row indices sums the three rows' probes |
| Generation.ProbeCountUnrolled | src/app/services/game-data.service.ts:110-127 | the neighbour count is the sum of the nine probes of the 3×3 block of confined indices |
| Generation.ProbeCountAtMostEight | src/app/services/game-data.service.ts:121-127 | the count never exceeds 8 because the centre probe never scores |
| Generation.ProbeCountIgnoresCentre | src/app/services/game-data.service.ts:123 | the centre is skipped by coordinate: two maps that differ only at the centre give the same count there, whatever the grid size |
| Generation.ProbeCountIgnoresFlip | src/app/services/game-data.service.ts:123 | flipping a cell leaves that cell's own count unchanged |
| Generation.RowHitsCountsCells | src/app/services/game-data.service.ts:122-126 | over distinct column indices, a row's probes count distinct live cells other than the centre |
| Generation.GridHitsCountsCells | src/app/services/game-data.service.ts:121-127 | over distinct row and column indices, the probes count distinct live cells other than the centre |
| Generation.AroundValues | src/app/services/game-data.service.ts:110-119 | the probed indices are the cyclic predecessor and successor, wrapping across the seam at 0 and at the last index |
| Generation.AroundIsAdjacent | src/app/services/game-data.service.ts:110-119 | an index is probed along an axis exactly when it is cyclically adjacent to the centre (both directions) |
| Generation.AroundDistinct | src/app/services/game-data.service.ts:110-119 | on an axis of at least 3 cells the three probed indices are distinct |
| Generation.ProbeCountCountsNeighbours | src/app/services/game-data.service.ts:100-130 | on a torus of at least 3×3 the count equals the number of live cells among the eight torus neighbours |
| Generation.NextGenerationAt | src/app/services/game-data.service.ts:132-148 | each cell of the next generation is Conway's rule applied to the pre-tick cell and its count |
| Generation.NextGenerationShape | src/app/services/game-data.service.ts:90-98 | a tick keeps the number of rows and the width and keeps the map rectangular |
| Generation.EmptyMapIsStill | src/app/services/game-data.service.ts:81-98 | a map of dead cells is its own next generation |
| Evolution.RectCount | src/app/services/game-data.service.ts:100-130 | on a torus of at least 3×3 a cell of a rectangle map counts, for each probed row inside the rectangle, the probed columns inside it, less itself when live |
| Evolution.BlockIsStill | src/app/services/game-data.service.ts:90-148 | a 2×2 block is its own next generation on every torus of at least 4×4 |
| Evolution.AcrossTurnsDown | src/app/services/game-data.service.ts:90-148 | one tick turns three live cells across into three live cells down, on every torus of at least 5×5 |
| Evolution.DownTurnsAcross | src/app/services/game-data.service.ts:90-148 | one tick turns three live cells down into three live cells across, on every torus of at least 5×5 |
| Evolution.BlinkerPeriodTwo | src/app/services/game-data.service.ts:90-148 | the blinker changes on every tick and is back after two: period exactly 2 |
| GameData.GameDataService.constructor | src/app/services/game-data.service.ts:11-46 | empty maps, the fastest tick rate, the selection at (0, 0) and the "game of life" message |
| GameData.GameDataService.NewMap | src/app/services/game-data.service.ts:81-88 | the result is exactly `rows` rows of `cols` dead cells |
| GameData.GameDataService.InitMap | src/app/services/game-data.service.ts:77-79 | the map becomes `rows` by `cols` dead cells |
| GameData.GameDataService.ClearMap | src/app/services/game-data.service.ts:59-61 | every cell dies and the dimensions are kept |
| GameData.GameDataService.AddRowProbes | src/app/services/game-data.service.ts:122-126 | the inner `forEach` adds exactly the row's probe hits to the running count |
| GameData.GameDataService.CountNeighbors | src/app/services/game-data.service.ts:100-130 | the count equals `ProbeCount`, is at most 8, and on grids of at least 3×3 equals the number of live torus neighbours |
| GameData.GameDataService.ComputeNextGen | src/app/services/game-data.service.ts:132-148 | a live cell or a cell with exactly 3 neighbours gets `Rule(cell, n)` in the buffer; a dead cell without 3 neighbours leaves the buffer alone; on a dead buffer cell the result is always `Rule(cell, n)` |
| GameData.GameDataService.TickRow | src/app/services/game-data.service.ts:93-95 | the inner loop fills the buffer row with the next generation's row and changes no other row |
| GameData.GameDataService.Tick | src/app/services/game-data.service.ts:90-98 | the map becomes `NextGeneration` of the pre-tick map, every count taken before any write, and the buffer is the new map |
| GameData.GameDataService.StepFwd | src/app/services/game-data.service.ts:73-75 | one step is one synchronous tick |
| GameData.GameDataService.FlipCell | src/app/services/game-data.service.ts:150-157 | the map becomes `Flip` of the old map at the selected cell |
| GameData.GameDataService.OnTickRateChange | src/app/services/game-data.service.ts:159-160 | the stored rate is `2500 - value` |
| GameData.GameDataService.AddRow | src/app/services/game-data.service.ts:167-170 | a dead row as wide as row 0 is appended and "[+] Added row" is posted |
| GameData.GameDataService.RemRow | src/app/services/game-data.service.ts:172-179 | the last row is dropped (nothing on an empty map) and "[-] Removed row" is posted |
| GameData.GameDataService.AddColumn | src/app/services/game-data.service.ts:181-188 | a dead cell is pushed onto every row and "[+] Added column" is posted |
| GameData.GameDataService.RemColumn | src/app/services/game-data.service.ts:190-198 | one cell is popped from every non-empty row and "[-] Removed column" is posted |
| GameData.GameDataService.SetCoordinates | src/app/services/game-data.service.ts:200-203 | the selected cell becomes (row, col) |
| GameData.ResizeRoundTrip | src/app/services/game-data.service.ts:167-198 | add row, remove row, add column, remove column on the service restore its map |
| LegacyGameData.StepBack | src/app/game-data.service.ts:107 | inside `[0, iMax]` a step back stays inside: it is `i - 1`, or `iMax` from 0 |
| LegacyGameData.StepForward | src/app/game-data.service.ts:142 | inside `[0, iMax]` a step forward stays inside: it is `i + 1`, or 0 from `iMax` |
| LegacyGameData.LegacyCount | src/app/game-data.service.ts:82-163 | the older count of a cell is at most 8 |
| LegacyGameData.LegacyCountSumsProbes | src/app/game-data.service.ts:106-160 | the older count is the number of live cells among the eight probes NW, N, NE, W, E, SW, S, SE, repeats included |
| LegacyGameData.LegacyNextGenerationAt | src/app/game-data.service.ts:71-80 | each cell of the older next generation is the rule applied to the pre-tick cell and the older count |
| LegacyGameData.LegacyProbesInBounds | src/app/game-data.service.ts:107-157 | there are exactly eight probes and each one-step wrap stays inside the grid |
| LegacyGameData.LegacyProbesAvoidCentre | src/app/game-data.service.ts:107-157 | with at least two rows and two columns no probe lands on the centre |
| LegacyGameData.SingleRowProbesHitCentre | src/app/game-data.service.ts:114-118 | with a single row the N and S probes both land on the centre |
| LegacyGameData.StepsAreAround | src/app/game-data.service.ts:107-108 | the older one-step wraps are the current revision's confined predecessor and successor |
| LegacyGameData.CountsAgree | src/app/game-data.service.ts:82-163 | on grids of at least 2×2 the older count equals the current one |
| LegacyGameData.SingleRowSelfCount | src/app/game-data.service.ts:114-118 | with one row the older count is the current count plus twice the cell itself |
| LegacyGameData.GenerationsAgree | src/app/game-data.service.ts:71-80 | on grids of at least 2×2 one tick of either revision gives the same map |
| LegacyGameData.GenerationsDifferOnOneRow | src/app/game-data.service.ts:149-153 | on the one-row map 1 1 0 the current revision keeps the first cell alive and the older one kills it |
| LegacyGameData.GameDataService.constructor | src/app/game-data.service.ts:8-14 | both maps are empty and the tick rate is 100 |
| LegacyGameData.GameDataService.InitMap | src/app/game-data.service.ts:49-58 | the map becomes `rows` by `cols` dead cells |
| LegacyGameData.GameDataService.InitNextMap | src/app/game-data.service.ts:60-69 | the buffer has the map's shape, row by row, all dead |
| LegacyGameData.GameDataService.CountNeighbors | src/app/game-data.service.ts:82-163 | the count equals `LegacyCount`, is at most 8, and on grids of at least 2×2 equals the current revision's count |
| LegacyGameData.GameDataService.ComputeNextGen | src/app/game-data.service.ts:165-185 | the three independent tests on a live cell and the one on a dead cell write `Rule(cell, n)`; a dead cell without 3 neighbours leaves the buffer alone |
| LegacyGameData.GameDataService.DevelopRow | src/app/game-data.service.ts:74-77 | the inner loop fills the buffer row with the older next generation's row and changes no other row |
| LegacyGameData.GameDataService.DevelopUniverse | src/app/game-data.service.ts:71-80 | the map becomes `LegacyNextGeneration` of the pre-tick map and the buffer is the new map |
| LegacyGameData.GameDataService.ClearMap | src/app/game-data.service.ts:27-31 | the map becomes dead cells with the old number of rows and row 0's width |
| LegacyGameData.GameDataService.StepFwd | src/app/game-data.service.ts:45-47 | one step is one tick of the older engine |
| LegacyGameData.GameDataService.FlipCell | src/app/game-data.service.ts:187-189 | the map becomes `Flip` of the old map at (row, col) |
| LegacyGameData.GameDataService.OnTickRateChange | src/app/game-data.service.ts:191-192 | the rate is stored as given, not mirrored as in the current revision |
| LegacyGameData.GameDataService.AddRow | src/app/game-data.service.ts:211-218 | a dead row as wide as row 0 is appended; on an empty map the new row is row 0, so it stays empty |
| LegacyGameData.GameDataService.RemRow | src/app/game-data.service.ts:220-222 | the last row is dropped, nothing on an empty map |
| LegacyGameData.GameDataService.AddColumn | src/app/game-data.service.ts:224-231 | a dead cell is pushed onto every row |
| LegacyGameData.GameDataService.RemColumn | src/app/game-data.service.ts:233-239 | one cell is popped from every non-empty row |
| PatternCreation.QuarterTurn | src/app/services/pattern-creation.service.ts:51-140 | each orientation in a table is the previous one turned by (dr, dc) to (dc, -dr), and turning the last gives the first |
| PatternCreation.TurnFourTimes | src/app/services/pattern-creation.service.ts:51-140 | four quarter turns give back the shape, so the cycle of orientations closes |
| PatternCreation.FourOrientations | src/app/services/pattern-creation.service.ts:51-140 | each pattern has four orientations |
| PatternCreation.OrientationSizes | src/app/services/pattern-creation.service.ts:152-305 | every glider orientation lists 5 cells and every spaceship orientation 9 |
| PatternCreation.TurnKeepsDistinct | src/app/services/pattern-creation.service.ts:51-140 | a quarter turn keeps distinct points distinct |
| PatternCreation.TurnKeepsSpan | src/app/services/pattern-creation.service.ts:51-140 | a quarter turn keeps the row and column spans within the same bound |
| PatternCreation.FirstOrientation | src/app/services/pattern-creation.service.ts:51-76 | the first orientation starts at the selected cell, lists no cell twice and fits the square below and to the right of it |
| PatternCreation.OrientationIsCompact | src/app/services/pattern-creation.service.ts:51-305 | every orientation starts at the selected cell, lists no point twice, and spans at most 2 (glider) or 4 (spaceship) rows and columns |
| PatternCreation.Absolute | src/app/services/pattern-creation.service.ts:46-59 | every placed point is inside the grid, because non-zero offsets are confined |
| PatternCreation.AbsoluteIsWrap | src/app/services/pattern-creation.service.ts:46-59 | within one grid length past either edge a point lands one lap back or forward |
| PatternCreation.AbsoluteIsToroidal | src/app/services/pattern-creation.service.ts:46-59 | within one grid length past either edge a point lands at its true torus position `(row + dr) mod rowLen`, `(col + dc) mod colLen` |
| PatternCreation.PlacedIsToroidal | src/app/services/pattern-creation.service.ts:44-143 | on a grid taller and wider than the pattern's reach, every placed cell of every orientation is at `(row + dr) mod rowLen`, `(col + dc) mod colLen` |
| PatternCreation.Placed | src/app/services/pattern-creation.service.ts:51-140 | an orientation placed at the selected cell keeps its number of points and lies inside the grid |
| PatternCreation.PlacedIsDistinct | src/app/services/pattern-creation.service.ts:51-140 | on a grid wider and taller than a shape's span, distinct offsets land on distinct cells |
| PatternCreation.PatternCellsAreDistinct | src/app/services/pattern-creation.service.ts:51-305 | on grids of at least 3×3 (glider) or 5×5 (spaceship) every orientation marks as many cells as it lists |
| PatternCreation.Stamp | src/app/services/pattern-creation.service.ts:32-37 | every listed point becomes live and every other cell keeps its value |
| PatternCreation.StampIdempotent | src/app/services/pattern-creation.service.ts:32-37 | stamping the same points twice is stamping them once |
| PatternCreation.StampMarksSelectedCell | src/app/services/pattern-creation.service.ts:51-56 | the clicked cell is live after any stamp, for either pattern and any orientation |
| PatternCreation.Started | src/app/services/pattern-creation.service.ts:310-313 | starting arms `p` and keeps the last pattern |
| PatternCreation.Cancelled | src/app/services/pattern-creation.service.ts:315-319 | cancelling disarms and remembers what was armed, which forgets the last pattern when nothing was armed |
| PatternCreation.StartCancelRestart | src/app/services/pattern-creation.service.ts:310-319 | start then cancel disarms and remembers the pattern; starting again re-arms it; a second cancel forgets it |
| PatternCreation.OrientationSelector.constructor | src/app/services/pattern-creation.service.ts:44 | a cursor starts at orientation 0 |
| PatternCreation.PatternCreationService.constructor | src/app/services/pattern-creation.service.ts:22-23 | nothing armed, nothing remembered, two separate cursors at 0 |
| PatternCreation.PatternCreationService.GeneratePattern | src/app/services/pattern-creation.service.ts:30-42 | the current orientation's points are stamped live, nothing else changes, and the cursor moves to `(old + 1) mod n` |
| PatternCreation.PatternCreationService.GenerateGlider | src/app/services/pattern-creation.service.ts:44-143 | the glider's current orientation is stamped at the selected cell and only the glider's cursor advances |
| PatternCreation.PatternCreationService.GenerateLwSpaceShip | src/app/services/pattern-creation.service.ts:145-308 | the spaceship's current orientation is stamped at the selected cell and only the spaceship's cursor advances |
| PatternCreation.PatternCreationService.StartPatternCreate | src/app/services/pattern-creation.service.ts:310-313 | `p` becomes armed, the last pattern is kept, and "Generating p" is posted |
| PatternCreation.PatternCreationService.CancelPatternCreate | src/app/services/pattern-creation.service.ts:315-319 | the armed pattern becomes the last one, nothing is armed, and the message is cleared |
| PatternCreation.PatternCreationService.FinishPatternCreate | src/app/services/pattern-creation.service.ts:321-332 | idle changes nothing; when armed, the armed pattern's current orientation is stamped, its cursor advances and the other pattern's cursor is unchanged; the armed pattern is never changed |
| MapComponent.TickRateLabel | src/app/map/map.ts:31-39 | "fastest" exactly at the minimum rate, "slowest" exactly at the maximum, the number itself otherwise |
| MapComponent.Info | src/app/map/map.ts:41-50 | the message's content, or the empty string when there is no message |
| MapComponent.Tooltip | src/app/map/map.ts:130-160 | the hover text is non-empty exactly for the nine named controls |
| MapComponent.RightClicked | src/app/map/map.ts:109-120 | armed: disarm and remember the armed pattern; idle with a last pattern: re-arm it; idle with none: no change |
| MapComponent.RightClickAlternates | src/app/map/map.ts:109-120 | once a pattern has been armed every right click flips the armed state and every second one returns to the same session; a session that never armed one is left alone |
| MapComponent.RightClickTwice | src/app/map/map.ts:109-120 | two right clicks while armed re-arm the same pattern, now remembered as last |
| MapComponent.DialogToggled | src/app/map/map.ts:122-128 | an open dialog is closed whatever is pressed; with none open, the pressed one opens (none stays none) |
| MapComponent.DialogTwice | src/app/map/map.ts:122-128 | pressing the same dialog button twice opens it then closes it |
| MapComponent.Map.constructor | src/app/map/map.ts:26-29 | the view shares its game data with the pattern service and no dialog is open |
| MapComponent.Map.NgOnInit | src/app/map/map.ts:62-64 | the map becomes 80 by 198 dead cells |
| MapComponent.Map.ClearMap | src/app/map/map.ts:74-76 | every cell dies and the dimensions are kept |
| MapComponent.Map.StepFwd | src/app/map/map.ts:86-88 | the map becomes its next generation |
| MapComponent.Map.OnTickRateChange | src/app/map/map.ts:94-98 | the stored rate is `2500 - value` |
| MapComponent.Map.OnClick | src/app/map/map.ts:100-107 | the clicked cell is always selected; when armed, the pattern is stamped, the cell is not toggled, its cursor moves to the next of four orientations and the other cursor is unchanged; when idle, the cell is toggled and both cursors are unchanged |
| MapComponent.Map.OnRightClick | src/app/map/map.ts:109-120 | when armed, cancels; when idle, re-arms the last pattern if there is one and otherwise changes nothing; always suppresses the context menu |
| MapComponent.Map.ToggleDialog | src/app/map/map.ts:122-128 | the open dialog follows `DialogToggled` |
| MapComponent.Map.MouseEnter | src/app/map/map.ts:130-162 | the status line shows the control's hover text, from the map |
| MapComponent.Map.MouseLeave | src/app/map/map.ts:164-166 | the status line is cleared and `info` becomes the empty string |
| PatternsComponent.PatternClicked | src/app/patterns/patterns.ts:24-30 | a click on the armed pattern disarms it and remembers it; a click on any other arms it and keeps the last pattern |
| PatternsComponent.ClickArmsOrDisarms | src/app/patterns/patterns.ts:24-30 | a click arms `p` exactly when `p` was not armed, never arms another pattern, keeps the last pattern when arming, and remembers `p` when disarming |
| PatternsComponent.ClickTwice | src/app/patterns/patterns.ts:24-30 | two clicks on the same unarmed pattern end idle with it remembered as last |
| PatternsComponent.SwitchKeepsLast | src/app/patterns/patterns.ts:27-28 | clicking another pattern while one is armed switches directly and leaves the last pattern untouched |
| PatternsComponent.Patterns.constructor | src/app/patterns/patterns.ts:16 | the component works on the given pattern service |
| PatternsComponent.Patterns.IsPatternCreateInProgress | src/app/patterns/patterns.ts:18-20 | true exactly when some pattern is armed |
| PatternsComponent.Patterns.OnClickPattern | src/app/patterns/patterns.ts:24-30 | the session becomes `PatternClicked(old, p)`; the message is cleared on a cancel and announces `p` on a start |

## Left out

- Timers: `play`, `stop`, `isGameRunning`, and the stop-and-restart inside `onTickRateChange`, in both revisions. They schedule ticks with `setInterval`. `tick`/`developUniverse` are modelled as synchronous calls and `stepFwd` as one call.
- Persistence: `saveMap`/`loadMap` (both revisions) go through the browser's `localStorage` and JSON, which are foreign calls.
- The older revision's getters `getMap`, `getIsGameRunning` and `getTickRate`: each only returns a field, which the model reads directly.
- Angular plumbing: signals are plain fields, and `computed` values are functions.
- Not modelled: `inject`, the `close` output and `onClose` of the patterns dialog, `saveMap`/`loadMap`/`play`/`stop`/`doNothing` in the map component, and the templates.
- `src/app/game-config/game-config.ts`, `src/app/options/options.ts` and `src/app/app.ts` are not part of this model. They only delegate, and game-config calls members the older service does not define.
- Map: `onTickRateChange(event)` takes the already parsed integer. `parseInt` of the slider's text and its NaN result are not modelled.
- Jagged and empty maps where the source would crash or read `cellMap[0]` of an empty map:
  - `tick`, `stepFwd`, `clearMap`, `countNeighbors` and the current `addRow` require at least one row;
  - the engine requires a rectangular map;
  - `flipCell`, `finishPatternCreate` and `onClick` require the selected cell to be on the map.
- Aliasing: in the source, `remRow`/`addColumn` copy the row list but share the row arrays. The model works on values, so it does not capture that the old and new maps share rows.
- GameData.GameDataService.NewMap: states only that the result equals `Zeros(rows, cols)`. The per-cell facts (every row has `cols` dead cells) are stated by `Zeros`.
- Integer width: JavaScript numbers are doubles. The model uses unbounded integers, which agree on every grid size the UI can create.
- `range == 0` in `confine` gives NaN in the source. The model requires a positive range.
