# Advanced Snake — a verified model of the game core

This project models the core of a Swing snake game: the `Snake` object (a
body deque of grid points, a heading, a bounded queue of direction keys and
a wrap flag) and the game state machine of `GamePanel` (starting a game, the
timer tick, the key commands, food, obstacles, power-ups with their timer,
levels, game over and the high score).

The model has three layers:

- value-level definitions of every step, as functions on datatypes
  (`SnakeRules` for the snake, `Placement` for the random placement loops,
  `GameRules` for the panel), with the properties the game promises proved
  as lemmas (`SnakeRules`, `GameLaws`);
- the two objects as classes whose fields their methods update in place
  (`Snakes.Snake`, `Panels.GamePanel`), each state-changing method proved to
  produce exactly the new state the value-level function gives; the snake's
  methods keep `Snake.Valid` (a non-empty body, at most three queued keys),
  and the panel's constructor, `InitGame`, `Tick`, the key commands and the
  timer callbacks keep `GamePanel.Valid`, which includes the game invariant
  `GameRules.Inv` (the panel's internal steps, such as `ResetCounters` or
  `SpawnFood`, are proved equal to their step functions only);
- the loops of the source kept as loops: the rejection-sampling do-whiles
  of `spawnFood`, `spawnObstacles` and `maybeSpawnPowerUp`, the obstacle
  scan of the tick, and the loops of `grow` and `shrink`.

Randomness is replaced by inputs. Every do-while that draws
`rnd.nextInt(COLS), rnd.nextInt(ROWS)` reads a sequence of drawn cells in
order; the 12% special-food coin, the 5% power-up coin and the power-up
kind are booleans and an enumeration passed in (`InitDraws`, `TickDraws`).
The source's unbounded do-whiles only end when an acceptable cell is drawn,
so the callers require the supplied draws to contain one
(`InitFeasible`, `TickFeasible`). The high-score file is a number passed in
(`loaded`). The two Swing timers that the panel arms for power-ups share
one slot, `powerUpTimer`; it is the field `PowerTimer`, and its callbacks
are the methods `ExpirePowerUp` and `RestoreSpeed`, which the environment
calls when the timer fires.

The model follows the code, including these behaviours:

- `queueDirection` compares a new key with `peek()`, the OLDEST queued
  direction, not the newest, and when three are queued it drops the oldest.
  Three quick keys can therefore queue a reversal, which kills the snake
  (`SnakeRules.QueueCanHoldReversal`, `SnakeRules.EvictionCanQueueReversal`,
  `SnakeRules.QueuedReversalKillsSnake`).
- `CLEAR_OBSTACLES` adds the size of the obstacle list read after clearing
  it, so it adds nothing to the score (`GameLaws.ClearObstaclesAddsNothing`).
- `initGame` places the food before it respawns the obstacles, so the food
  avoids the previous game's obstacles and may lie under a new one; the
  invariant therefore does not claim the food is off the obstacles.
- `initGame` does not clear the power-up on the board.
- Spawning a power-up stops a pending speed-boost restore, so the boosted
  interval stays (`GameLaws.SpawnCancelsRestore`); a second boost saves the
  already boosted interval (`GameLaws.StackedBoostStaysFast`).

`Direction.java` and `Obstacle.java` are not part of this model: `Direction`
is modelled from its uses (`dx`, `dy`, `isOpposite`) and an obstacle is its
cell.

## Model

| member | source | states |
|---|---|---|
| Grid.Direction.Opposite | src/com/example/snake/Snake.java:33 | the opposite heading has the negated unit step and differs from the heading |
| Grid.Step | src/com/example/snake/Snake.java:58 | the next head is one axis-aligned unit step from the old one |
| Grid.FloorMod | src/com/example/snake/Snake.java:120-121 | Math.floorMod: the result lies in [0, m) for a positive divisor (in (m, 0] for a negative one) and a value already in range is unchanged |
| Grid.FloorModShift | src/com/example/snake/Snake.java:120-121 | adding the divisor leaves Math.floorMod unchanged; with FloorMod's range and identity this fixes its value for every x and a positive divisor |
| Grid.FloorModAcrossEdge | src/com/example/snake/Snake.java:115-122 | a head one cell past either edge re-enters at the opposite edge |
| SnakeRules.InitialSnake | src/com/example/snake/Snake.java:16-22 | a new snake is three cells in a row ending at the start cell, heading right, with an empty queue and wrap off |
| SnakeRules.Enqueued | src/com/example/snake/Snake.java:24-44 | the queue changes exactly when the key is neither the opposite of nor equal to the upcoming (oldest queued) direction; the key goes to the back, the oldest entry is dropped when three are queued, and the queue never exceeds three |
| SnakeRules.Dequeued | src/com/example/snake/Snake.java:49-52 | update removes exactly the oldest queued direction, if any |
| SnakeRules.Moved | src/com/example/snake/Snake.java:58-62 | one step keeps the length, puts the new head one step from the old head and shifts every other cell back by one |
| SnakeRules.Updated | src/com/example/snake/Snake.java:46-64 | update adopts the oldest queued direction (or keeps the heading), dequeues it, puts a new head one step that way and keeps the old body without its tail behind it |
| SnakeRules.Grown | src/com/example/snake/Snake.java:66-72 | grow(n) keeps the body as a prefix and appends max(n, 0) copies of the tail cell |
| SnakeRules.Shrunk | src/com/example/snake/Snake.java:74-78 | shrink(n) keeps a prefix, removes min(n, length - 1) tail cells and never the last cell |
| SnakeRules.WrapHead | src/com/example/snake/Snake.java:115-122 | wrapping replaces only the head, by (floorMod(x, cols), floorMod(y, rows)); the new head is on the board, and a head already on the board is left alone |
| SnakeRules.WrapAcrossEdge | src/com/example/snake/Snake.java:115-122 | a head that steps one cell off the board re-enters at the opposite edge (-1 goes to the last column or row, COLS or ROWS to 0), keeping the coordinate it did not move along |
| SnakeRules.MovedOccupancy | src/com/example/snake/Snake.java:46-64 | after a step the snake occupies the new head and every old cell but the tail |
| SnakeRules.MovedSelfCollision | src/com/example/snake/Snake.java:88-96 | after a step the head hits the body exactly when it lands on an old cell other than the old tail |
| SnakeRules.GrownSameCells | src/com/example/snake/Snake.java:66-72 | growing occupies no new cell |
| SnakeRules.ShrunkSubset | src/com/example/snake/Snake.java:74-78 | shrinking only frees cells |
| SnakeRules.MovedKeepsConnected | src/com/example/snake/Snake.java:46-64 | a step keeps consecutive cells adjacent (or equal) |
| SnakeRules.GrownKeepsConnected | src/com/example/snake/Snake.java:66-72 | growth keeps consecutive cells adjacent (or equal) |
| SnakeRules.ShrunkKeepsConnected | src/com/example/snake/Snake.java:74-78 | shrinking keeps consecutive cells adjacent (or equal) |
| SnakeRules.WrapHeadIdempotent | src/com/example/snake/Snake.java:115-122 | a wrapped head is on the board and wrapping again changes nothing |
| SnakeRules.SingleInputNeverReverses | src/com/example/snake/Snake.java:24-64 | one key pressed with an empty queue never turns the snake onto its opposite heading |
| SnakeRules.QueueCanHoldReversal | src/com/example/snake/Snake.java:28-36 | heading right, the keys Up, Left, Right are all queued, Right straight after its opposite Left |
| SnakeRules.EvictionCanQueueReversal | src/com/example/snake/Snake.java:35-41 | with three queued, a key that reverses the heading is kept and the queue's front becomes the reverse of the heading |
| SnakeRules.QueuedReversalKillsSnake | src/com/example/snake/Snake.java:24-64 | those three quick keys make a fresh snake run into itself on the third update |
| SnakeRules.ReversalPlaysOut | src/com/example/snake/Snake.java:46-64 | the three updates that follow the queue [Up, Left, Right] put the head on the third cell |
| SnakeRules.TurnUpExample | src/com/example/snake/Snake.java:46-64 | a fresh snake at (14, 12) told Up moves its head to (14, 11) with the rest following |
| Snakes.Snake.constructor | src/com/example/snake/Snake.java:16-22 | the new object's fields are InitialSnake(startX, startY) |
| Snakes.Snake.QueueDirection | src/com/example/snake/Snake.java:24-44 | the queue becomes Enqueued of the old queue; nothing else changes; at most three stay queued |
| Snakes.Snake.Update | src/com/example/snake/Snake.java:46-64 | the fields become Updated of the old fields |
| Snakes.Snake.Grow | src/com/example/snake/Snake.java:66-72 | the loop leaves the body equal to Grown(old body, n), all else unchanged |
| Snakes.Snake.Shrink | src/com/example/snake/Snake.java:74-78 | the loop leaves the body equal to Shrunk(old body, n), all else unchanged |
| Snakes.Snake.Occupies | src/com/example/snake/Snake.java:80-83 | true exactly when some body cell equals p |
| Snakes.Snake.SelfCollision | src/com/example/snake/Snake.java:88-96 | true exactly when a cell after the head equals the head |
| Snakes.Snake.Head | src/com/example/snake/Snake.java:85 | the head is a body cell, and the snake has hit itself exactly when the head recurs later in the body |
| Snakes.Snake.ToggleWrap | src/com/example/snake/Snake.java:98-106 | only the wrap flag flips, and the snake stays valid |
| Snakes.Snake.OutOfBounds | src/com/example/snake/Snake.java:110-113 | true exactly when the head is off the COLS x ROWS board |
| Snakes.Snake.WrapPosition | src/com/example/snake/Snake.java:115-122 | the body becomes WrapHead of the old body, all else unchanged |
| Placement.FirstAllowed | src/com/example/snake/GamePanel.java:116-120 | the index of the first draw the exclusion rule accepts: every earlier draw is rejected |
| Placement.Allowed | src/com/example/snake/GamePanel.java:132-141 | the accepted draws in order: each is accepted and was drawn |
| Placement.FirstAllowedWithin | src/com/example/snake/GamePanel.java:146-153 | the first accepted draw among the first n (every draw before it is rejected), and none exactly when all n are rejected |
| Placement.AllowedEmpty | src/com/example/snake/GamePanel.java:132-141 | no cell is accepted exactly when every draw is rejected |
| Placement.FirstAllowedIs | src/com/example/snake/GamePanel.java:116-120 | an accepted draw preceded only by rejected ones is the first accepted |
| Placement.AllowedFromFirst | src/com/example/snake/GamePanel.java:134-140 | the accepted draws are the first accepted one followed by those drawn after it |
| Placement.DrawCell | src/com/example/snake/GamePanel.java:116-120 | the do-while returns the first accepted draw and how many draws it consumed |
| Placement.DrawCells | src/com/example/snake/GamePanel.java:132-141 | n successive do-whiles return the first n accepted draws |
| Placement.DrawCellWithin | src/com/example/snake/GamePanel.java:146-153 | the bounded do-while returns the first accepted draw among the first maxAttempts, or gives up |
| GameRules.AfterSpawnFood | src/com/example/snake/GamePanel.java:116-123 | only the food changes; it is a drawn cell on neither the snake nor an obstacle, with the given special flag |
| GameRules.AfterSpawnObstacles | src/com/example/snake/GamePanel.java:132-141 | only the obstacles change; they are n drawn cells, none on the snake |
| GameRules.AfterLevelUp | src/com/example/snake/GamePanel.java:257-265 | the level becomes the larger of the old level and 1 + score / 5; on a rise the interval is the level's and one more obstacle (at most 30) is respawned off the snake; without a rise nothing changes |
| GameRules.AfterGameOver | src/com/example/snake/GamePanel.java:292-298 | the game stops, the power-up timer is cancelled and the high score becomes the larger of it and the score; nothing else changes |
| GameRules.Advanced | src/com/example/snake/GamePanel.java:176-187 | the move of the tick: only the snake changes; it keeps its length and wrap flag, dequeues the upcoming direction, the old body without its tail follows the new head, and the new head is one step from the old one with wrap off, and with wrap on it is the floorMod image of that step, on the board |
| GameRules.AfterSpawnPowerUp | src/com/example/snake/GamePanel.java:143-170 | only the power-up and the timer slot can change, and only from no power-up to a new one with its expiry armed; GameLaws.PowerUpPlacement and GameLaws.SpawnCancelsRestore characterise where and when |
| GameRules.AfterEat | src/com/example/snake/GamePanel.java:203-209 | the score rises by the food's points, the body becomes Grown by the food's growth, and power-up, timer, high score, running and paused are kept; GameLaws.EatStep and GameLaws.EatKeepsInv add the level and the new food |
| GameRules.AfterApplyPowerUp | src/com/example/snake/GamePanel.java:226-255 | food, power-up, level, score, high score, running and paused are kept; only SPEED_BOOST touches the interval and the timer, only SHRINK the snake, only CLEAR_OBSTACLES the obstacles; GameLaws.SpeedBoostRestores, GameLaws.ShrinkPowerUp and GameLaws.ClearObstaclesAddsNothing give each effect |
| GameRules.AfterPickUp | src/com/example/snake/GamePanel.java:211-215 | without the head on the power-up nothing changes; a pick-up clears the power-up and keeps food, score, level, high score, running and paused; GameLaws.PickUpDeactivates and GameLaws.PickUpKeepsInv |
| GameRules.AfterTick | src/com/example/snake/GamePanel.java:172-224 | a tick never changes the paused flag and never restarts a stopped game; GameLaws.TickPreservesInv, GameLaws.ProgressNeverReverses, GameLaws.WallHitEndsGame, GameLaws.CrashEndsGame, GameLaws.EatingFood and GameLaws.NotEating characterise each branch, giving the snake's cells on a surviving tick without a pick-up (the moved snake, grown when it eats) |
| GameRules.AfterExpiry | src/com/example/snake/GamePanel.java:161-166 | only the power-up and the timer slot can change, and a power-up left on the board is the old one; GameLaws.ExpiryClearsPowerUp gives both cases |
| GameRules.AfterRestore | src/com/example/snake/GamePanel.java:237-240 | only the interval and the timer slot can change; when they do, the interval is at most 100 ms and the slot is empty; GameLaws.SpeedBoostRestores gives the restored value |
| GameRules.AfterInit | src/com/example/snake/GamePanel.java:47-66 | a new game has score 0, level 1, 100 ms, runs unpaused with no timer, the fresh snake, the old power-up, the loaded high score (at least 0) and six obstacles; GameLaws.InitEstablishesInv adds the invariant, the food and the obstacle cells |
| GameRules.Restarted | src/com/example/snake/GamePanel.java:47-58 | after the new snake is made, the food avoids the new snake and the obstacle list still on the board |
| GameLaws.InitEstablishesInv | src/com/example/snake/GamePanel.java:47-66 | a new game satisfies the invariant, runs unpaused at level 1, score 0 and 100 ms, with the fresh snake, the loaded high score (at least 0), the food at the first acceptable drawn cell, the first six acceptable obstacle cells and the old power-up |
| GameLaws.AdvanceKeepsInv | src/com/example/snake/GamePanel.java:176-187 | a move that does not hit the wall keeps the bounds and leaves the head on the board |
| GameLaws.LevelCatchesUp | src/com/example/snake/GamePanel.java:257-260 | a rising score never lowers the level that the score determines |
| GameLaws.EatKeepsInv | src/com/example/snake/GamePanel.java:204-209 | eating keeps the invariant and the head |
| GameLaws.PickUpKeepsInv | src/com/example/snake/GamePanel.java:212-215 | picking up a power-up keeps the invariant and the head |
| GameLaws.SpawnPowerUpKeepsInv | src/com/example/snake/GamePanel.java:143-170 | spawning a power-up keeps the invariant |
| GameLaws.TickPreservesInv | src/com/example/snake/GamePanel.java:172-224 | every tick keeps the invariant: level = 1 + score / 5, interval within [20, 100], at most 30 obstacles, everything on the board, and while running the head on the board and the food off the snake |
| GameLaws.CommandsKeepInv | src/com/example/snake/GamePanel.java:85-114 | pause, direction keys, wrap toggle, both timer callbacks and game over keep the invariant |
| GameLaws.IdleTickChangesNothing | src/com/example/snake/GamePanel.java:174 | a tick while paused or over changes nothing |
| GameLaws.WallHitEndsGame | src/com/example/snake/GamePanel.java:177-184 | with wrap off, a head stepping off the board ends the game right after the move, with score, level, food, obstacles and power-up untouched and the high score updated |
| GameLaws.WrapNeverHitsWall | src/com/example/snake/GamePanel.java:185-187 | with wrap on the wall never ends the game and the head is back on the board |
| GameLaws.CrashEndsGame | src/com/example/snake/GamePanel.java:189-201 | a head on an obstacle or the body ends the game before food and power-up are looked at |
| GameLaws.EatingFood | src/com/example/snake/GamePanel.java:203-218 | eating raises the score by 1 or 5, the level follows the score, the new food is off the snake and the obstacles, and without a pick-up the snake is the moved body grown by 1 or 3 copies of its tail |
| GameLaws.EatStep | src/com/example/snake/GamePanel.java:204-209 | the food branch: score up by the food's points, body grown by its growth, new food off snake and obstacles, level not lower |
| GameLaws.PickUpThenSpawn | src/com/example/snake/GamePanel.java:211-218 | pick-up and power-up spawn keep score, level, food and high score; snake and obstacles change only on a pick-up and never onto the food |
| GameLaws.NotEating | src/com/example/snake/GamePanel.java:172-224 | a surviving tick that does not eat keeps score, level and food, and without a pick-up the obstacles and exactly the moved (and wrapped) snake |
| GameLaws.ProgressNeverReverses | src/com/example/snake/GamePanel.java:172-224 | a tick never lowers the score, the level or the high score |
| GameLaws.LevelTickMsBounds | src/com/example/snake/GamePanel.java:261 | a level's interval lies in [20, 100] and does not grow with the level |
| GameLaws.FirstLevelUp | src/com/example/snake/GamePanel.java:257-265 | score 5 at level 1 gives level 2, a 95 ms interval and one more obstacle |
| GameLaws.SpeedBoostRestores | src/com/example/snake/GamePanel.java:230-243 | a boost sets the interval to max(20, interval - 40) and arms the restore with the old interval, changing nothing else; the interval does not grow, and the restore brings back the saved interval and clears the slot |
| GameLaws.StackedBoostStaysFast | src/com/example/snake/GamePanel.java:230-240 | two boosts from 100 ms give 20 ms, and the restore then gives 60 ms, not 100 |
| GameLaws.SpawnCancelsRestore | src/com/example/snake/GamePanel.java:157-168 | a power-up spawned during a boost takes the timer slot, so the restore never happens and the interval stays boosted |
| GameLaws.ShrinkPowerUp | src/com/example/snake/GamePanel.java:245-247 | SHRINK leaves max(1, length - 3) cells, a prefix of the body, and nothing else changes |
| GameLaws.ClearObstaclesAddsNothing | src/com/example/snake/GamePanel.java:249-253 | CLEAR_OBSTACLES empties the obstacles and leaves the score as it was |
| GameLaws.PickUpDeactivates | src/com/example/snake/GamePanel.java:212-215 | a picked-up power-up leaves the board |
| GameLaws.PowerUpPlacement | src/com/example/snake/GamePanel.java:143-170 | a power-up on the board stays; a new one is off snake, obstacles and food, one of the first 50 draws, of the drawn kind, with its expiry timer armed; if all 50 draws are rejected nothing spawns, and with the slot empty, the coin up and an acceptable cell among the 50 draws one does spawn |
| GameLaws.ExpiryClearsPowerUp | src/com/example/snake/GamePanel.java:161-166 | the expiry callback removes the power-up; when the slot holds anything else it does nothing |
| GameLaws.PauseToggles | src/com/example/snake/GamePanel.java:267-270 | pausing twice restores the state, and a paused game ignores ticks |
| Panels.GamePanel.constructor | src/com/example/snake/GamePanel.java:15-45 | the new panel is the result of initGame on the initial field values, and satisfies the invariant |
| Panels.GamePanel.InitGame | src/com/example/snake/GamePanel.java:47-66 | the fields become AfterInit of the old fields, with a fresh snake, and the invariant holds |
| Panels.GamePanel.ResetCounters | src/com/example/snake/GamePanel.java:61-65 | score 0, level 1, 100 ms, running and not paused; nothing else changes |
| Panels.GamePanel.SpawnFood | src/com/example/snake/GamePanel.java:116-123 | the fields become AfterSpawnFood of the old fields |
| Panels.GamePanel.ObstaclesContains | src/com/example/snake/GamePanel.java:125-130 | true exactly when some obstacle is at p |
| Panels.GamePanel.SpawnObstacles | src/com/example/snake/GamePanel.java:132-141 | the fields become AfterSpawnObstacles of the old fields |
| Panels.GamePanel.MaybeSpawnPowerUp | src/com/example/snake/GamePanel.java:143-170 | the fields become AfterSpawnPowerUp of the old fields |
| Panels.GamePanel.HitsObstacle | src/com/example/snake/GamePanel.java:190-195 | the loop reports a hit exactly when the head is on an obstacle |
| Panels.GamePanel.Tick | src/com/example/snake/GamePanel.java:172-224 | the fields become AfterTick of the old fields and the invariant is kept |
| Panels.GamePanel.PickUpPowerUp | src/com/example/snake/GamePanel.java:211-215 | the fields become AfterPickUp of the old fields |
| Panels.GamePanel.EatFood | src/com/example/snake/GamePanel.java:203-209 | the fields become AfterEat of the old fields |
| Panels.GamePanel.ApplyPowerUp | src/com/example/snake/GamePanel.java:226-255 | the fields become AfterApplyPowerUp of the old fields |
| Panels.GamePanel.MaybeLevelUp | src/com/example/snake/GamePanel.java:257-265 | the fields become AfterLevelUp of the old fields |
| Panels.GamePanel.GameOver | src/com/example/snake/GamePanel.java:292-298 | the fields become AfterGameOver of the old fields |
| Panels.GamePanel.TogglePause | src/com/example/snake/GamePanel.java:267-270 | only the paused flag flips, and the invariant is kept |
| Panels.GamePanel.QueueDirection | src/com/example/snake/GamePanel.java:108-114 | only the snake's queue changes, as Enqueued says, and the invariant is kept |
| Panels.GamePanel.ToggleWrap | src/com/example/snake/GamePanel.java:101-105 | only the snake's wrap flag flips, and the invariant is kept |
| Panels.GamePanel.ExpirePowerUp | src/com/example/snake/GamePanel.java:161-166 | the fields become AfterExpiry of the old fields, and the invariant is kept |
| Panels.GamePanel.RestoreSpeed | src/com/example/snake/GamePanel.java:237-240 | the fields become AfterRestore of the old fields: the interval returns to min(100, saved), and the invariant is kept |

## Left out

- Randomness: `java.util.Random`, the 12% special-food and 5% power-up probabilities and `PowerUp.Type.randomType` are inputs (`InitDraws`, `TickDraws`); the model says nothing about their distribution.
- Panels.GamePanel.Tick: requires the supplied draws to contain an acceptable cell for every unbounded do-while the tick runs, because the source loops until one is drawn; a board with no free cell makes the source loop forever and is not modelled.
- Panels.GamePanel.InitGame: requires the draws to contain an acceptable food cell and six acceptable obstacle cells, for the same reason.
- The high-score file (`HighScoreStore`): `load` is the `loaded` parameter (a failing load is the caller passing 0) and `save` in `gameOver` is not modelled; the constructor uses one loaded value for both the field initialiser and `initGame`.
- Swing timers: the main timer's `start`, `stop` and `setDelay(tickMs)` are not modelled (the interval is the field `tickMs`); the power-up timer is the `powerUpTimer` slot, and its firing is the caller invoking `ExpirePowerUp` or `RestoreSpeed`.
- `restartGame` is `InitGame` called on the current panel; the game-over dialog, `System.exit` and the constructor's error dialog are not modelled.
- Rendering (`paintComponent`, `drawTile`, `drawSnake`, `repaint`), `getBody`, `dispose` and the key-binding setup are not modelled; the key actions are the methods `TogglePause`, `QueueDirection` and `ToggleWrap`.
- Concurrency: the synchronized lock, the concurrent collections, parallel streams, `volatile` and the 100 ms `Thread.sleep` in `toggleWrap` are left out; all events run one at a time, as on the Swing event thread.
- Null checks (`d == null` is modelled as `None`; `head == null`, `p == null`, `food == null` and null obstacles cannot occur in the model).
- Integers are unbounded: 32-bit overflow of the score or coordinates is not modelled (the head stays within one cell of the board).
- Points are values: `wrapPosition` changes the head point in place, and the model replaces the head cell instead; no other object holds that point, so nothing else observes the difference.
- SnakeRules.Connected: proved to survive moves, growth and shrinking, but not claimed after a wrap, which joins cells on opposite edges.
