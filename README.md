# Robot grid game: engine core in Dafny

A model of the discrete rules of a browser programming game. A robot walks a tile map
of rows of characters: `#` is a wall, `.` and ` ` are floor, and `H` refills health.
Player programs drive the robot with a few actions:
- turn left or right, turn to a direction;
- step forward, attack, face the nearest enemy;
- walk to a cell given in coordinates relative to the map's top-left floor cell.

After each step the enemies take one scripted tick. Each enemy follows a cyclic script
of `move_forward`, `turn_left` and `turn_right` entries. An enemy the robot stands
beside, and not behind, turns to the robot and strikes instead of moving. A level is
won by collecting coins, defeating enemies and reaching a goal, each optional. A
level manager keeps a cursor over the ordered list of levels.

Modules:

- `Types` (types.dfy): the records of src/types.ts: positions, direction vectors,
  the robot with optional health, enemies with their script and play-head, the closed
  three-action enum, the three-part optional win condition and the level record. The
  map field is called `grid` because `map` is a keyword.
- `Geometry`: unit vectors, the two quarter turns, the table of directions in the
  order up, right, down, left, and the turn plan of `turnToDirection`.
- `WorldMap`: walkability, health cells, and the origin of relative coordinates.
- `Rules`: the pure rules of the engine: occupancy, engagement, facing, the
  enemies' scripted step, the scripted phase of a tick, the nearest-enemy choice,
  back-attack damage, enemy damage and the win condition.
- `Pathfinding`: walks, reachability and shortest walks, and the breadth-first
  search proved against them.
- `EngineSpec`: a `Snapshot` of the engine's mutable fields and one specification
  function per engine operation, with the lemmas that state what the source
  promises.
- `Engine`: the `GameEngine` class. Its fields are updated in place. Every method's
  postcondition ties the new fields to the `EngineSpec` function of the old ones,
  and the class invariant `Valid` says three things: all headings are unit vectors,
  all play-heads lie in their scripts, and the robot's health is a number in (0, 6].
- `Levels`: the `LevelManager` cursor.
- `Fixtures`: the two level definitions in levels/, with scenario lemmas about them.

### The `delay` calls

The source awaits `delay`, which rejects with 'Game stopped' once the running flag
is cleared. Run sequentially, only one thing clears the flag inside an action. An
enemy strike that brings health to 0 or below calls `stopGame()`, which also resets
the level. Only one `delay` can come after that: the closing one of `moveEnemies`.
Every other `delay` runs while the game is still running and so returns normally.
The model therefore drops the delays and returns an `Outcome`. `Stopped` means
the rejection. It propagates through `moveForward` and `moveToPosition`, which stop at that point.

### Where the model follows the code rather than the prose description

- A strike that kills the robot resets the whole level, because `stopGame` defaults
  to `resetAfterStop = true` (src/game-engine.ts:733, 1201, 1222-1224). The game is
  then stopped, the robot is back at the start and the level's `levelCompleted` flag is kept.
- A forward step blocked by a wall still runs the enemy tick. Only the adjacent-enemy
  early return skips it (src/game-engine.ts:322-325, 353-371).
- The coin sub-goal is tested for truthiness, so `requiredCoins: 0` counts as unset
  (src/game-engine.ts:1127).
- `loadLevel` and the constructor copy an enemy's template `currentBehaviorIndex`.
  Only `reset` sets it to 0 (src/game-engine.ts:61-64, 2227-2230, 271).
- The robot's health is never missing, zero or negative once the engine exists. It starts
  at 6, the refill sets it to 6, and a strike that takes it to 0 or below resets the level
  (src/game-engine.ts:728-734). So the falsy-health branches of `enemyAttack` and
  `getPlayerHealth` never run (src/game-engine.ts:725 and 1185).
- A cell past the end of a row that is shorter than row 0 reads as `undefined` and is
  walkable (src/game-engine.ts:983-995).

## Model

| member | source | states |
|---|---|---|
| Geometry.TurnLeftOf | src/game-engine.ts:388-391 | the counter-clockwise quarter turn takes up to left, left to down, down to right and right to up, and keeps exactly the unit vectors unit |
| Geometry.TurnRightOf | src/game-engine.ts:420-423 | the clockwise quarter turn takes up to right, right to down, down to left and left to up, and keeps exactly the unit vectors unit |
| Geometry.TurnsAreInverse | src/game-engine.ts:375-436 | a left turn undoes a right turn and the reverse; two equal turns reverse the direction |
| Geometry.DirIndex | src/game-engine.ts:801-815 | every unit vector has a position in the table up, right, down, left |
| Geometry.DirectionIndex | src/game-engine.ts:809-815 | the index search gives -1 exactly for a non-unit direction, and otherwise the table position of the direction |
| Geometry.DirsCycle | src/game-engine.ts:819-848 | one step on in the direction table is a right turn, three steps a left turn, two a reversal |
| Geometry.PlanTurnsReachesTarget | src/game-engine.ts:2055-2114 | from a unit heading the planned turns face any unit target, with at most two turns; two exactly for a reversal; right-right exactly when reversing from right or up; no turn for a non-unit target |
| Geometry.ApplyShortTurns | src/game-engine.ts:2098-2104 | one or two planned turns apply in order |
| WorldMap.HealthCellIsWalkable | src/game-engine.ts:981-997 | a health cell within the map width is walkable |
| WorldMap.OriginUnique | src/game-engine.ts:1151-1165 | the origin of relative coordinates is determined by the map |
| WorldMap.WalkableOrigin | src/game-engine.ts:1153-1165 | the scan returns the least column and the least row holding a floor cell, capped by the width and the height |
| Rules.FirstLivingAt | src/game-engine.ts:972-976 | the first living enemy on a cell is found exactly when a living enemy holds it, and no earlier enemy does |
| Rules.FirstLivingFrom | src/game-engine.ts:458-460 | the same search from a given index |
| Rules.FirstNeighbourDir | src/game-engine.ts:313-326 | the first direction in up, right, down, left order with a living enemy next to the robot, with none in earlier directions; none found means no neighbour holds one |
| Rules.NeighbourFrom | src/game-engine.ts:313-326 | the same scan from a given direction |
| Rules.OrthogonalIsNeighbour | src/game-engine.ts:2126-2131 | two cells are orthogonal neighbours exactly when one is the other plus a table direction |
| Rules.FirstNeighbourDirIffAdjacent | src/game-engine.ts:2119-2147 | the neighbour scan succeeds exactly when some living enemy is an orthogonal neighbour |
| Rules.NoNeighbourMeansFrontIsClear | src/game-engine.ts:333-350 | with no living neighbour, the cell in front holds no living enemy |
| Rules.EngagementIsOrthogonal | src/game-engine.ts:667-694 | an enemy is engaged exactly when the robot is its orthogonal neighbour other than the cell behind it |
| Rules.TurnedTowards | src/game-engine.ts:697-706 | only the heading changes, and the enemy then faces the robot's cell |
| Rules.EngagedEnemyFacesRobot | src/game-engine.ts:697-706 | an engaged enemy turned towards the robot has a unit heading |
| Rules.BackAttackIffFacingAway | src/game-engine.ts:451-470 | for the enemy in front of the robot, the back attack happens exactly when it has the robot's heading |
| Rules.OpenDirection | src/game-engine.ts:799-855 | a unit heading stays unit, and a heading that is not a unit vector is kept |
| Rules.OpenDirectionChoice | src/game-engine.ts:799-855 | a blocked enemy with a unit heading tries the right turn, the left turn and the reversal in that order, and takes the first free one, where free means walkable with no living enemy; otherwise it keeps its heading |
| Rules.OpenDirectionAt | src/game-engine.ts:817-848 | the same choice read off the direction table at the heading's index plus 1, 3 and 2, modulo 4 |
| Rules.BehaviorStep | src/game-engine.ts:747-796 | empty script: no change. Otherwise the play-head advances cyclically whatever happens. Identity, health and script never change, and the play-head stays in its script |
| Rules.BehaviorStepMoves | src/game-engine.ts:747-796 | an enemy moves at most one step, forward. With a unit heading it moves exactly on `move_forward` when not engaged and the cell in front is free. An engaged enemy keeps its cell and heading; a blocked one keeps its cell and turns to its open direction; the turn actions rotate in place |
| Rules.ScriptedPhase | src/game-engine.ts:624-639 | the walk over the enemies keeps their number and their well-formedness |
| Rules.ScriptedPhaseStep | src/game-engine.ts:624-638 | a living enemy that is not engaged takes its scripted step, and the walk goes on to the next enemy with the updated list |
| Rules.ScriptedPhaseFixedAt | src/game-engine.ts:624-639 | no enemy's identity, health or script changes |
| Rules.ScriptedPhaseKeepsAt | src/game-engine.ts:624-626 | enemies before the start and dead enemies are left exactly as they were |
| Rules.ScriptedPhaseKeeps | src/game-engine.ts:624-626 | the same for all such enemies at once |
| Rules.ScriptedPhaseEngagedFound | src/game-engine.ts:627-634 | a reported enemy lies at or after the start, is alive and is engaged |
| Rules.ScriptedPhaseSweptAt | src/game-engine.ts:624-638 | every enemy passed before the reported one (or the end) is dead or not engaged |
| Rules.ScriptedPhaseBeyondAt | src/game-engine.ts:629-634 | the reported enemy and all after it are left untouched |
| Rules.ScriptedPhaseEngaged | src/game-engine.ts:624-639 | the first living engaged enemy is reported and it and all after it are untouched; every enemy passed before it is dead or not engaged |
| Rules.EngagedTurnKeepsOk | src/game-engine.ts:629-706 | turning the reported enemy towards the robot keeps every enemy well formed |
| Rules.ScriptedPhaseAdvancesAt | src/game-engine.ts:635-796 | a living enemy with a script passed before the reported one advances its play-head exactly once |
| Rules.ScriptedPhaseAdvances | src/game-engine.ts:624-639 | the same for all such enemies at once |
| Rules.NearestFrom | src/game-engine.ts:560-574 | the scan keeps the first living enemy of least squared distance |
| Rules.FirstNearest | src/game-engine.ts:560-574 | the scan ends on the first living enemy of least distance, or none when no enemy lives |
| Rules.AxisToward | src/game-engine.ts:576-598 | the dominant axis wins, with ties going to the horizontal; the result points right or down exactly when the enemy lies that way |
| Rules.GoalOnlyWin | src/game-engine.ts:1121-1125 | with only a goal set, winning means standing on it |
| Rules.WinMonotone | src/game-engine.ts:1113-1138 | more defeats and more coins never undo a win |
| Pathfinding.IsWalkSnoc | src/game-engine.ts:2008-2026 | extending a walk by a unit step onto a passable cell is a walk ending one step further |
| Pathfinding.WalkCoversManhattan | src/game-engine.ts:1945-2046 | no walk is shorter than the Manhattan distance it covers |
| Pathfinding.WalksStayDiscovered | src/game-engine.ts:1979-2041 | once every cell nearer than L has been expanded, each walk of length at most L ends on a discovered cell no farther than its length |
| Pathfinding.EmptyWalkIffSameCell | src/game-engine.ts:1948-1952 | a shortest walk is empty exactly when start and target coincide |
| Pathfinding.ExpandNeighbours | src/game-engine.ts:1990-2040 | the neighbour loop returns a shortest walk when it reaches the target; otherwise it keeps the search invariant and the search measure does not grow |
| Pathfinding.FindPathBFS | src/game-engine.ts:1945-2046 | returns [] when start and target coincide. It returns a path exactly when the target is reachable by unit steps over walkable cells free of living enemies, the target excepted, and the path is a shortest such walk |
| EngineSpec.ResetSpec | src/game-engine.ts:237-285 | reset yields a well-formed state for well-formed level data |
| EngineSpec.ResetRestoresTemplates | src/game-engine.ts:257-273 | robot at the start position and heading with health 6; enemies are template copies with 2 health and play-head 0; nothing collected or defeated; stopped; a second reset changes nothing |
| EngineSpec.LoadSpec | src/game-engine.ts:49-65 | the initial state is well formed for well-formed level data |
| EngineSpec.RunTurnsTurnsOnly | src/game-engine.ts:375-436 | turns change only the heading, and only while the game runs |
| EngineSpec.TurnToCases | src/game-engine.ts:2055-2114 | turnToDirection does nothing when already facing the target, one left or right turn for a quarter turn, right-right for a reversal from right or up and left-left for any other reversal, and nothing otherwise |
| EngineSpec.RunShortTurns | src/game-engine.ts:2098-2104 | zero, one or two planned turns apply in order |
| EngineSpec.TurnsUndoEachOther | src/game-engine.ts:375-436 | the two turn actions undo each other and keep position, health and well-formedness |
| EngineSpec.TurnToFaces | src/game-engine.ts:2055-2114 | turnToDirection changes only the heading; while running it faces any request whose normalisation is a unit vector; stopped, it does nothing |
| EngineSpec.FaceEnemyFaces | src/game-engine.ts:518-601 | faceEnemy changes only the heading. An adjacent living enemy ends up in front of the robot; otherwise the heading is the dominant axis towards the nearest living enemy |
| EngineSpec.ArriveEffects | src/game-engine.ts:1080-1138 | arriving adds at most the cell's own coin, and only if it is a level coin. It sets health to 6 only on an `H` cell below 6, and otherwise changes only the completion flag |
| EngineSpec.EnemyAttackSpec | src/game-engine.ts:709-744 | a strike keeps well-formedness |
| EngineSpec.TickSpec | src/game-engine.ts:604-657 | a tick keeps well-formedness |
| EngineSpec.TickQuiet | src/game-engine.ts:624-640 | a running tick with no engaged enemy only moves the enemies and completes |
| EngineSpec.TickEngaged | src/game-engine.ts:627-640 | a running tick that meets an engaged enemy turns it to the robot, lets it strike, and is stopped exactly when the strike stopped the game |
| EngineSpec.TickEffects | src/game-engine.ts:604-657 | a tick is stopped exactly when a strike ended a running game, and then the state is the reset. Otherwise the robot, the coins, the defeats and the flags are kept, and health is kept or lowered by exactly 1.2; a completed tick that hit the robot leaves it alive |
| EngineSpec.TickHitsIffEngaged | src/game-engine.ts:624-734 | in a running game the robot loses health exactly when some living enemy is engaged |
| EngineSpec.ForwardSpec | src/game-engine.ts:288-372 | moveForward keeps well-formedness |
| EngineSpec.ForwardBlockedByNeighbour | src/game-engine.ts:313-326 | with a living enemy beside the robot, moveForward only turns to face, and no tick follows |
| EngineSpec.ForwardSteps | src/game-engine.ts:352-371 | moveForward moves exactly onto a walkable forward cell and keeps the heading. Coins only grow, by at most the new cell. A stopped outcome leaves the reset of the state before the step, except that the completion flag may have been set on arrival |
| EngineSpec.AttackMissChangesNothing | src/game-engine.ts:503-514 | an attack that finds no living enemy in front changes nothing |
| EngineSpec.AttackHit | src/game-engine.ts:451-501 | only the enemy in front is hit, by 4 exactly when it faces away. Defeats grow by one exactly when its health drops to 0 or below. The robot and the coins are untouched and the game keeps running |
| EngineSpec.FreshEnemyDefeat | src/game-engine.ts:465-486 | an enemy with 2 health falls to one back attack, or to two attacks from the front or a side |
| EngineSpec.StepSpec | src/game-engine.ts:1923-1929 | one step of the replay, a turn to the step's direction and then a forward move, keeps well-formedness |
| EngineSpec.ReplaySpec | src/game-engine.ts:1916-1932 | the step replay keeps well-formedness |
| EngineSpec.ReplayFollowsWalk | src/game-engine.ts:1916-1932 | with no living enemy, replaying a walk ends on the walk's last cell, still running, completed and with the enemies unchanged |
| EngineSpec.MoveToSkips | src/game-engine.ts:1850-1911 | an out-of-bounds, wall or unreachable target leaves the state unchanged and completes |
| EngineSpec.MoveToReplays | src/game-engine.ts:1850-1935 | for a valid reachable target, any shortest walk to it is replayed |
| EngineSpec.MoveToCurrentPosition | src/game-engine.ts:1850-1935 | the relative coordinates getCurrentPosition reports, handed to moveToPosition, name the robot's own cell, and walking there changes nothing and completes |
| EngineSpec.MoveToArrives | src/game-engine.ts:1850-1935 | with no living enemy, walking to a valid reachable target ends on it |
| Engine.GameEngine.constructor | src/game-engine.ts:49-65 | robot at the start with health 6, template enemies with 2 health, nothing collected, not running |
| Engine.GameEngine.Reset | src/game-engine.ts:237-285 | the fields become the reset of the old ones |
| Engine.GameEngine.StopGame | src/game-engine.ts:1201-1227 | clears the running flag, and resets when asked to |
| Engine.GameEngine.StartGame | src/game-engine.ts:1620-1644 | a stopped game starts running and, if it has enemies, takes one tick; a running game is untouched |
| Engine.GameEngine.TurnLeft | src/game-engine.ts:375-404 | the fields become the left-turn specification of the old ones |
| Engine.GameEngine.TurnRight | src/game-engine.ts:407-436 | the fields become the right-turn specification of the old ones |
| Engine.GameEngine.TurnToDirection | src/game-engine.ts:2055-2114 | the fields become the planned turns applied to the old ones |
| Engine.GameEngine.NearestLivingEnemy | src/game-engine.ts:2157-2171 | returns the first living enemy of least distance |
| Engine.GameEngine.FaceEnemy | src/game-engine.ts:518-601 | the fields become the faceEnemy specification of the old ones |
| Engine.GameEngine.CheckCoinCollection | src/game-engine.ts:1080-1094 | the coin set gains the cell exactly when it is a level coin |
| Engine.GameEngine.CheckHealthRestore | src/game-engine.ts:1097-1110 | health is refilled exactly on an `H` cell below 6 |
| Engine.GameEngine.CheckWinCondition | src/game-engine.ts:1113-1148 | the completion flag is set exactly when the win condition holds |
| Engine.GameEngine.RotateEnemyToOpenDirection | src/game-engine.ts:799-855 | only that enemy's heading changes, to its open direction |
| Engine.GameEngine.ExecuteEnemyBehavior | src/game-engine.ts:747-796 | only that enemy changes, to its scripted step |
| Engine.GameEngine.FaceEnemyTowardsPlayer | src/game-engine.ts:697-706 | only that enemy changes, turned towards the robot |
| Engine.GameEngine.EnemyAttack | src/game-engine.ts:709-744 | the fields become the strike specification: 1.2 damage when the robot is in front and its health is truthy, a reset when that brings it to 0 or below |
| Engine.GameEngine.MoveEnemies | src/game-engine.ts:604-647 | the fields and the outcome become the tick specification of the old fields |
| Engine.GameEngine.FollowPath | src/game-engine.ts:1916-1932 | the fields and the outcome become the replay of the walk from the old fields |
| Engine.GameEngine.MoveForward | src/game-engine.ts:288-372 | the fields and the outcome become the moveForward specification of the old fields |
| Engine.GameEngine.Attack | src/game-engine.ts:439-515 | the fields become the attack specification of the old ones |
| Engine.GameEngine.IsEnemyAdjacent | src/game-engine.ts:2119-2147 | true exactly when a living enemy is an orthogonal neighbour of the robot |
| Engine.GameEngine.GetEnemyX | src/game-engine.ts:2150-2175 | the nearest living enemy's column, or -1 when no enemy lives |
| Engine.GameEngine.GetEnemyY | src/game-engine.ts:2178-2203 | the nearest living enemy's row, or -1 when no enemy lives |
| Engine.GameEngine.GetCurrentPosition | src/game-engine.ts:1151-1171 | the robot's cell minus the origin of relative coordinates |
| Engine.GameEngine.GetPlayerHealth | src/game-engine.ts:1184-1186 | the stored health itself, always a number in (0, 6]: the fallback to 0 never applies on a running engine |
| Engine.GameEngine.LoadLevel | src/game-engine.ts:2206-2237 | the engine holds the new level in its initial state |
| Engine.GameEngine.MoveToPosition | src/game-engine.ts:1850-1935 | stopped: nothing happens. Running: an out-of-bounds, wall or unreachable target changes nothing; otherwise the robot replays a shortest walk to the target, turning then stepping, and stops early on a stopped outcome |
| Levels.FirstWithIdFrom | src/level-manager.ts:27-29 | the first level with the identifier at or after a position, or none |
| Levels.FirstWithId | src/level-manager.ts:27-29 | the first position whose level has the identifier, found exactly when some level has it |
| Levels.DistinctIdsLookup | src/level-manager.ts:32-41 | with distinct identifiers, a level's own identifier finds its own position |
| Levels.LevelManager.constructor | src/level-manager.ts:13-14 | the cursor starts at 0 |
| Levels.LevelManager.GetCurrentLevel | src/level-manager.ts:17-19 | the level under the cursor, undefined only for an empty list |
| Levels.LevelManager.GetLevelById | src/level-manager.ts:27-29 | the first level with the identifier, or undefined |
| Levels.LevelManager.LoadLevel | src/level-manager.ts:32-41 | a known identifier moves the cursor to its first position and returns that level; an unknown one returns undefined and leaves the cursor |
| Levels.LevelManager.HasNextLevel | src/level-manager.ts:53-55 | there is a next level exactly when the list is non-empty and the cursor is not on its last level, and then the next index is in range |
| Levels.LevelManager.LoadNextLevel | src/level-manager.ts:44-50 | succeeds exactly when a next level exists. It then advances the cursor by one and returns the new level; otherwise the cursor stays. The cursor stays in range |
| Levels.LevelManager.GetCurrentLevelIndex | src/level-manager.ts:58-60 | the cursor lies on a level of a non-empty list |
| Fixtures.LevelsAreWellFormed | levels/level1.ts:49-73 | both levels have unit headings and in-range play-heads |
| Fixtures.LevelOrigins | levels/level1.ts:42-48 | both maps are framed by walls, so relative (0, 0) is absolute (1, 1) |
| Fixtures.FramedOrigin | src/game-engine.ts:1151-1165 | a map whose top row and left column are walls and whose cell (1, 1) is floor has its origin at (1, 1) |
| Fixtures.Level1Reset | levels/level1.ts:56-73 | resetting or loading level 1 puts its guard at (5, 1) facing down with 2 health at the start of its patrol |
| Fixtures.RowTwoPassable | levels/level1.ts:42-48 | row 2 of level 1 is open between the walls while the guard is at its post |
| Fixtures.ExitWalkPrefix | levels/level1.ts:42-55 | each prefix of the exit walk is a walk ending on the expected cell |
| Fixtures.Level1ExitIsSevenSteps | levels/level1.ts:42-55 | the shortest walk from the start of level 1 to its exit has 7 steps |
| Fixtures.Level1ExitInRelativeCoordinates | levels/level1.ts:79-83 | relative (6, 1) is the exit of level 1 |
| Fixtures.Level1WinCondition | levels/level1.ts:79-83 | level 1 is won on the exit with 2 coins and 1 defeat, and not with a coin, a defeat or the exit missing |
| Fixtures.FiveHitsEndTheRun | src/game-engine.ts:722-734 | from full health, four enemy strikes leave the robot alive and the fifth brings it to 0 or below |
| Fixtures.Level1FirstTick | levels/level1.ts:56-73 | the first tick of level 1 moves the guard one cell down and advances its play-head, changing nothing else |

## Left out

- Rendering, audio, toasts, the viewport and the coordinate overlay (PixiJS and DOM output).
- Timing: the delay lengths, the polling in `delay`, and the `setTimeout` by which `moveEnemies` re-arms itself. The environment is taken to call `MoveEnemies` for every tick.
- Engine.GameEngine.StartGame: the tick it starts is not awaited in the source and may interleave with player actions; the model runs it to completion. The unhandled rejection when that tick is stopped is not modelled.
- `moveToNearestEnemy`: its path comes from the easystarjs library, whose source is not part of this model.
- `previewEnemyMovement` and `abortPreview`, which depend on AbortController and timing.
- `sayMessage`: a toast and a delay.
- `changeLevel`, `isLevelCompleted`, `isGameRunningState`, `getXPosition`, `getYPosition`, `getPlayerMaxHealth`: one-line accessors or a redraw around `Reset`.
- Levels.LevelManager.GetTotalLevels: kept as the plain accessor `getTotalLevels`; it has no property of its own to state.
- `areEnemiesEngaged` and `hasAnyEnemyEngaged`: only used to choose whether to delay.
- The `initialized` flag: every method assumes the display has been set up.
- A map with no rows: the source throws when it reads row 0; the model gives it width 0.
- The real level list: the engine works over any list of levels. levels 3 to 9 are not part of this model, only levels 1 and 2.
- `getLevels`: it returns the constant `levels` field.
- IEEE double rounding of health: health is an exact real, 6 less 1.2 per strike. The fifth strike leaves a value at or below 0 in both readings, so the outcome is the same.
- Aliasing: the constructor and `loadLevel` build enemies as shallow copies (src/game-engine.ts:61-64, 2227-2230). These share their position and direction objects with the level template. Until the next `reset`, enemy moves and turns write into the template (src/game-engine.ts:767-768, 781-790, 826-851, 703-704). A `reset` in that window rebuilds the enemies where they stand, not at their posts (src/game-engine.ts:265-272). The model's value records cannot share, so its reset always restores the posts. The two agree in the app, because src/main.ts:127 and 393 call `reset()` before every run and after every level load, so no move happens on a shared copy.
- localStorage writes in `showLevelComplete` and all console logging.
- The level text fields (description, hint, story) in the fixtures are left empty.
- Engine.GameEngine.constructor: it requires well-formed level data (unit headings, play-heads inside their scripts); the source would fail at run time on an out-of-range play-head.
- Engine.GameEngine.LoadLevel: it requires well-formed level data, as the constructor does.
- Engine.GameEngine.FaceEnemyTowardsPlayer: it requires an engaged enemy, the only way the source calls it.
- UI glue (src/main.ts, Blockly setup, theme and renderer, src/utils.ts) and the build tooling.
