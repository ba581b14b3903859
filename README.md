# Two-player dodging race — a verified model of its game core

The game is a browser race between two players. Each player has a
10 × 20 playfield. Pieces of tetromino shape spawn above the field in one
of three lanes and fall one row per move interval. A player standing on
row 17 is out as soon as a block of one of its pieces is on its cell or
on the cell directly above it. When both players are out, the race is
over and any key starts a new one.

Each player may hand control to a bot. The bot builds a *danger grid*:
every block is projected 25 rows down, and each cell counts the
projections that land on it. From that grid the bot picks a target
column with one of four strategies:

1. nearest safe column;
2. least dangerous neighbour;
3. cheapest weighted path, favouring the centre;
4. middle of the widest safe gap.

It then steps one column per frame towards the target.

The Dafny project models this core, module by module:

| module | file | models |
|---|---|---|
| `Geometry` | `geometry.dfy` | constants, shapes, obstacles, the cells an obstacle occupies (`getOccupiedCells`) |
| `SpawnPlanner` | `spawn.dfy` | the shape catalogue, the lanes, the spawn proposal and the buffer rule (`canSpawnWithBuffer`, `attemptSpawnInLane`) |
| `Collision` | `collision.dfy` | `checkCollision` |
| `DangerField` | `danger.dfy` | `buildDangerGrid`, specified by the pure function `DangerAt` |
| `BotStrategies` | `bots.dfy` | `findBestPath`, its four strategies and `findBestPath_BFS_to_Target` |
| `Simulation` | `simulation.dfy` | players (`createPlayer`), the race (`resetGameState`), `updatePlayer`, `update` and the keydown handler |

**Units and time**
- Positions are kept in grid cells. A pixel coordinate of the game is the
  cell index times `BLOCK_SIZE`, which is 40.
- Timestamps are whole milliseconds, passed in as `now`.
- The speed multiplier is kept in integer tenths: 1.0 is 10, the step 0.2
  is 2, and the bounds 0.2 and 5.0 are 2 and 50.
- The interval tests `now - last > interval / speed` are cross-multiplied
  into integer comparisons.

**Randomness and game objects**
- The three `Math.random` draws of a spawn attempt are supplied as a
  `SpawnDraw` value.
- Players and the race are classes whose methods update their fields in
  place.
- The danger grid is an `array2<int>` built by nested loops.
- Pure rules are functions, and each strategy's result is pinned down by a
  specification predicate.

## Model

| member | source | states |
|---|---|---|
| Geometry.MaxWidth | script.js:96-109 | the widest row of a shape: no row is wider, and some row has that width |
| Geometry.GetOccupiedCells | script.js:96-109 | the set holds exactly the cells covered by a block of the obstacle; it has one cell per block of the shape, and every cell lies in the shape's bounding box at the obstacle's anchor |
| SpawnPlanner.CatalogueRectangular | script.js:34-40 | every shape of the catalogue is a non-empty rectangle |
| SpawnPlanner.FitWithin | script.js:138 | filtering keeps exactly the shapes whose first row fits the width |
| SpawnPlanner.Allowed | script.js:138 | the allowed shapes of a lane are exactly the catalogue shapes whose first row fits the lane's width |
| SpawnPlanner.Propose | script.js:136-147 | the candidate is a catalogue shape placed wholly inside the chosen lane, with its bottom row just above the grid; there is no candidate exactly when no shape fits the lane |
| SpawnPlanner.AddSquare | script.js:121-123 | the buffer grows by exactly the 5 × 5 square around the base cell |
| SpawnPlanner.CandidateBuffer | script.js:112-126 | the buffer holds exactly the cells within Chebyshev distance 2 of a block of the candidate |
| SpawnPlanner.CanSpawnWithBuffer | script.js:111-134 | true exactly when no obstacle whose top is above row 4 has a block in the candidate's buffer |
| SpawnPlanner.AttemptSpawnInLane | script.js:136-152 | the result is the proposed candidate when the buffer rule admits it and nothing otherwise; a spawned obstacle fits its lane, lies above the grid and respects the buffer |
| SpawnPlanner.NothingNearTopAccepts | script.js:127-133 | with no obstacle above row 4, every candidate is admitted |
| SpawnPlanner.ShiftInvariance | script.js:111-134 | shifting the candidate and all obstacles by the same number of columns does not change the verdict |
| SpawnPlanner.RejectWitness | script.js:127-131 | a block of a near-top obstacle within distance 2 of a candidate block rejects the candidate |
| Collision.CheckCollision | script.js:154-171 | true exactly when some obstacle has a block on the player's cell or on the cell above it |
| Collision.NoObstaclesNoHit | script.js:154-171 | a player with no obstacles is never hit |
| Collision.PruneKeepsHits | script.js:495 | dropping obstacles at or below the pruning row never changes whether a player above that row is hit |
| DangerField.StepHits | script.js:194-199 | one projection reaches an in-grid row exactly when it lies within the projection depth below the block |
| DangerField.LineHits | script.js:190-201 | the hits from one shape row: the projection depth of the block in that column, if any |
| DangerField.ShapeHitsPositive | script.js:189-202 | an obstacle adds danger to an in-grid cell exactly when it has a block in that column at most 24 rows above it |
| DangerField.DangerPositive | script.js:184-206 | the danger of an in-grid cell is positive exactly when some obstacle has a block in its column at most 24 rows above it |
| DangerField.ProjectionReaches | script.js:194-199 | a block raises the danger of each of the 25 in-grid cells from it downwards |
| DangerField.NoObstaclesNoDanger | script.js:185 | with no obstacles the field is zero |
| DangerField.OutsideGridNoDanger | script.js:196 | cells outside the grid never receive danger |
| DangerField.AddObstacle | script.js:186-204 | the field grows by exactly the hits of one obstacle |
| DangerField.BuildDangerGrid | script.js:184-206 | a 20 × 10 field holding `DangerAt` in every cell |
| DangerField.SafeMeansNoThreat | script.js:218 | a column is safe exactly when no obstacle threatens its cell on the row or on the row above |
| BotStrategies.RankIsSearchOrder | script.js:213-229 | the breadth-first search reaches the columns nearest first, left before right at equal distance |
| BotStrategies.Straight | script.js:217-227 | the path from p to c visits every column between them in order, one per step |
| BotStrategies.StraightIsAdjacentWalk | script.js:223-227 | a path starts at the player, ends at the target and moves one column per step |
| BotStrategies.Advance | script.js:217-229 | one dequeue-and-enqueue step keeps the search front (a contiguous visited interval, queued columns at its ends, each with its straight path), grows the interval and strictly increases the progress measure |
| BotStrategies.CombinedAt | script.js:276 | the grid read of a column gives its danger on the player's row plus that on the row above |
| BotStrategies.SafeAt | script.js:290 | the grid read of a column is true exactly when the column is safe: no danger on the player's row nor on the row above |
| BotStrategies.FindBestPathBfs | script.js:209-232 | the nearest safe column (ties to the left) and the straight path to it; the player's own column when none is safe |
| BotStrategies.FindBestPathBfsToTarget | script.js:330-350 | an in-grid target with the straight path to it; the player's own column for a target off the grid |
| BotStrategies.GreedyOptions | script.js:240 | the options are exactly the in-grid columns within one of the player, in the order player, left, right |
| BotStrategies.OptionDangers | script.js:245-246 | the danger of each option is the sum of the danger on the player's row and on the row above |
| BotStrategies.FindBestPathGreedy | script.js:235-254 | the least dangerous option, the earliest on ties, with the straight path to it |
| BotStrategies.RowDanger | script.js:276 | the combined danger of every column of the player's row (its cell plus the cell above); a column's entry is zero exactly when the column is safe |
| BotStrategies.StraightIsCheapest | script.js:263-285 | no walk along the row reaches a column for less than the straight path, so the weighted search settles the straight-path costs |
| BotStrategies.StraightPathCost | script.js:263-285 | the cost of the straight path, summed step by step, equals the settled cost of its end |
| BotStrategies.PathCostStep | script.js:275-280 | relaxing an edge never improves on the settled cost |
| BotStrategies.SettleCosts | script.js:263-285 | every column receives its settled cost and the straight path to it |
| BotStrategies.SweepRight | script.js:263-285 | the columns right of the player receive their settled costs and paths |
| BotStrategies.SweepLeft | script.js:263-285 | the columns left of the player receive their settled costs and paths, the right side being settled already |
| BotStrategies.FindBestPathCenterHugger | script.js:257-302 | the safe column with the least settled cost (the leftmost on ties) and the straight path to it; the greedy choice when no column is safe |
| BotStrategies.FindBestPathOpportunist | script.js:305-327 | the middle column (rounded right) of the widest run of safe columns (the leftmost among equals), with the straight path to it; the greedy choice when no column is safe |
| BotStrategies.FindBestPath | script.js:174-182 | the plan of the selected strategy (breadth-first for unknown numbers); always an in-grid target with the straight path to it |
| BotStrategies.PlanIsStraight | script.js:174-182 | whatever the strategy, the target is in the grid and the path walks straight to it |
| BotStrategies.NearestSafePlanUnique | script.js:209-232 | the breadth-first plan is determined by the danger field and the player's column |
| BotStrategies.GreedyPlanUnique | script.js:235-254 | the greedy plan is determined by the danger field and the player's column |
| BotStrategies.PathCostGrows | script.js:277 | each step costs at least one unit (5 in the scaled costs), so the cost grows with the distance |
| BotStrategies.CheapestSafePlanUnique | script.js:287-301 | the centre-hugger plan is determined by the danger field and the player's column |
| BotStrategies.WidestRunUnique | script.js:310-320 | the widest, leftmost safe run is unique |
| BotStrategies.OpportunistTargetSafe | script.js:321-324 | when a safe column exists, the opportunist's target is safe |
| BotStrategies.StaysWhenSafe | script.js:174-302 | a player on a safe column keeps it under strategies 1 to 3 |
| Simulation.ScoreIsFloor | script.js:452-453 | the score is the floor of tenths of a second played times the speed multiplier |
| Simulation.Clamp | script.js:465 | a column is kept inside the grid and unchanged when already inside |
| Simulation.StepToward | script.js:462-466 | a bot step stays in the grid, moves at most one column and brings the player one column nearer the target |
| Simulation.StepsReachTarget | script.js:462-466 | a bot keeping its target reaches it after as many steps as the distance |
| Simulation.Descended | script.js:487-489 | the move tick keeps every obstacle |
| Simulation.DescendedCovers | script.js:487-489 | after a move tick every block is one row lower |
| Simulation.Prune | script.js:495 | the filter keeps exactly the obstacles above the pruning row and never lengthens the list |
| Simulation.PruneCounts | script.js:495 | the filter keeps every copy of an obstacle above the pruning row and no copy of any other |
| Simulation.PruneAppend | script.js:495 | the filter keeps the order: filtering a concatenation concatenates the filtered parts |
| Simulation.PruneIdempotent | script.js:495 | filtering twice keeps what filtering once keeps |
| Simulation.PruneKeepsCollision | script.js:495 | filtering never changes whether a player above the pruning row is hit |
| Simulation.SpawnNeverHits | script.js:468-477 | a freshly spawned obstacle is above the grid, so it never decides a collision |
| Simulation.ProposeAbove | script.js:145 | every proposed obstacle lies wholly above the grid |
| Simulation.SpeedAfter | script.js:562-563 | up adds exactly one step of 0.2 and down subtracts one, each capped at the bound 5.0 or 0.2; the speed always stays within [0.2, 5.0], and other keys keep it |
| Simulation.SpeedUpDown | script.js:562-563 | away from the upper bound, a step up then a step down restores the speed |
| Simulation.ManualMove | script.js:540-541 | a manual move is one column towards the key's side, clamped; other keys do not move |
| Simulation.LeftThenRight | script.js:540-541 | away from the left wall, left then right is no move |
| Simulation.ParseDigit | script.js:544 | a key parses to a number exactly when it is a single decimal digit, and to that digit's value |
| Simulation.P1Algorithm | script.js:544-545 | player one's keys 1 to 4 select that algorithm; every other key keeps the current one |
| Simulation.P2Algorithm | script.js:554-559 | player two's keys 7, 8 and 9 select algorithms 1, 2 and 3 and the key 0 selects 4; every other key keeps the current one |
| Simulation.AlgorithmKeys | script.js:544-559 | each player can select each of the four algorithms with one key, and the algorithm always stays between 1 and 4 |
| Simulation.AlgorithmKeysDisjoint | script.js:544-559 | no key changes the algorithms of both players |
| Simulation.LiveStepHit | script.js:462-477 | a live player is out after its step exactly when an obstacle it already had covers its new cell or the cell above |
| Simulation.TickedHit | script.js:493-496 | after its part of a frame a player who was out stays out, a live player is out exactly when a kept obstacle hits it, and every kept obstacle is above the pruning row |
| Simulation.Player.constructor | script.js:50-68 | a new player is centred on row 17 with no obstacles, score 0, an idle bot running algorithm 1, and a last spawn staggered by a quarter second per player index |
| Simulation.Player.Think | script.js:455-460 | the bot records a plan of its algorithm for the current obstacles and column, stamped with the time, and keeps its settings |
| Simulation.Player.SpawnStep | script.js:468-472 | when a spawn is due the admitted obstacle (if any) is appended and the spawn time stamped; otherwise nothing changes |
| Simulation.Player.Command | script.js:536-559 | a manual move only when the bot is off and the player is in; the toggle key flips the bot; the algorithm is set as selected |
| Simulation.Player.Descend | script.js:487-489 | every obstacle falls one row and nothing else changes |
| Simulation.RestoredPlayer | script.js:83-90 | a fresh player as created, carrying the earlier bot's on/off setting and algorithm |
| Simulation.GameState.constructor | script.js:70-92 | the first race: both players fresh with idle bots, clock started now, speed 1.0, neither paused nor over |
| Simulation.GameState.Reset | script.js:70-92 | a new race with fresh players that keep their bots' on/off settings and algorithms; the clock restarts and the speed is 1.0 |
| Simulation.GameState.UpdatePlayer | script.js:449-478 | a player who is out, or a paused race, changes nothing; otherwise the score, a due bot decision, the bot step, a due spawn and the collision verdict follow the live-step rule |
| Simulation.GameState.Update | script.js:480-502 | a finished or paused race is frozen; otherwise a due move tick drops every live player's obstacles, each player takes its step and loses its fallen obstacles, and the race is over exactly when every player is |
| Simulation.GameState.Frame | script.js:484-501 | a running frame: the move tick when due, each player's step, and the game-over latch |
| Simulation.GameState.MoveTick | script.js:487-489 | the obstacles of every live player fall one row; players who are out are untouched |
| Simulation.GameState.TickPlayers | script.js:493-496 | each player takes its step and then loses its fallen obstacles |
| Simulation.GameState.TickOne | script.js:494-495 | one player's step followed by the filter of its fallen obstacles |
| Simulation.GameState.HandleKey | script.js:516-564 | any key restarts a finished race; `p` toggles the pause and books the paused time; while paused nothing else changes; otherwise both players' commands and the speed keys apply |
| Simulation.GameState.PlayKey | script.js:536-563 | player one's block, player two's block, then the speed keys |

The contracts above are stated with these definitions, each of which models
one source expression:

- `Simulation.Score` (script.js:452-453): the score as whole tenths of a second played times the speed.
- `Simulation.MoveDue` (script.js:486): the move interval has elapsed.
- `Simulation.SpawnDue` (script.js:468): the spawn interval has elapsed.
- `Simulation.ThinkDue` (script.js:455): the bot's think interval has elapsed.
- `Simulation.FirstSpawnTime` (script.js:59): the staggered first spawn time of a new player.
- `DangerField.Combined` (script.js:276): a column's danger on a row plus that on the row above.
- `DangerField.Safe` (script.js:218): no danger on the row nor on the row above.

## Left out

- Drawing is not modelled: the canvas, the overlays, the bot-path display, `gameLoop` with `requestAnimationFrame`, `console.log` and `preventDefault`. They decide nothing in the game.
- Colours of players and pieces are not modelled. No rule reads them.
- `Math.random` is replaced by the `SpawnDraw` parameter, whose three naturals are taken modulo the range they pick from.
- `performance.now()` is replaced by the parameter `now`, in whole milliseconds. The keydown handler reads the clock itself; the model passes it the event's time.
- Score and timing arithmetic is not done in floating point. The score is the exact floor of tenths of a second times the speed. The interval tests are exact integer comparisons. The `Math.max(0.01, …)` guard on the move interval never applies, because the speed is at least 0.2.
- The speed is modelled exactly in tenths. The source adds 0.2 in binary floating point, so its clamp at 5.0 or 0.2 can land one rounding step away; that is not modelled.
- BotStrategies.FindBestPathCenterHugger: costs are scaled by 5 to whole numbers (`5 + 50·danger + distance to centre`). Floating-point sums of 0.2 in the source could break an exact tie differently; the model compares exact costs.
- BotStrategies.FindBestPathCenterHugger: the sorted-array priority queue is replaced by one sweep right and one sweep left of the player. The weighted search settles for each column the cost of the cheapest walk to it. `StraightIsCheapest` shows that this walk is the straight one, so the sweeps settle the same costs and paths. The order of relaxations inside the queue is not modelled.
- Bot paths are kept as lists of columns, not lists of pixel points. Every point of a path is on the player's row.
- The bot record is a value stored in its player, not a shared object. Nothing in the source aliases it.
- Keys are taken already lower-cased (`toLowerCase` is not modelled). `parseInt` is modelled only for single-character keys. Every digit key is a single character, and multi-character key names parse to NaN.
- Simulation.GameState.Reset: the source's loop over `NUM_PLAYERS` is unrolled for the two players.
- Simulation.GameState.constructor: models the first `resetGameState`, when there are no earlier players.
- Helper methods and lemmas that split a source function for the proof have no rows of their own, for example the search-front and sweep step lemmas.
