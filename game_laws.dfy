/** What the tick and the commands promise, proved about GameRules. */
module GameLaws {
  import opened Config
  import opened Wrappers
  import opened Grid
  import opened SnakeRules
  import opened Placement
  import opened GameRules

  // ---------------------------------------------------------------------------
  // The invariant

  /** A new game: the invariant holds, the counters start over, the food is
      the first drawn cell off the new snake and the previous obstacles, the
      obstacles are the first INITIAL_OBSTACLES drawn cells off the snake, and
      the power-up is whatever the previous game left. */
  lemma InitEstablishesInv(prev: GameState, loaded: int, d: InitDraws)
    requires InitFeasible(prev.obstacles, d)
    requires prev.power.Some? ==> InGrid(prev.power.value.pos)
    ensures var s := AfterInit(prev, loaded, d);
      && Inv(s)
      && s.score == 0 && s.level == 1 && s.tickMs == BASE_TICK_MS
      && s.running && !s.paused && s.timer == NoTimer
      && s.snake == InitialSnake(COLS / 2, ROWS / 2)
      && s.highScore == Max(0, loaded)
      && s.power == prev.power
      && s.food == Food(d.foodCells[FirstAllowed(d.foodCells, Exclusion(StartSnake().body, prev.obstacles, None))], d.foodSpecial)
      && s.obstacles == Allowed(d.obstacleCells, Exclusion(StartSnake().body, [], None))[..INITIAL_OBSTACLES]
  {
    var snakeRule := Exclusion(StartSnake().body, [], None);
    var obstacles := Allowed(d.obstacleCells, snakeRule)[..INITIAL_OBSTACLES];
    assert forall i :: 0 <= i < |obstacles| ==> obstacles[i] in d.obstacleCells;
    var k := FirstAllowed(d.foodCells, Exclusion(StartSnake().body, prev.obstacles, None));
    assert Allows(Exclusion(StartSnake().body, prev.obstacles, None), d.foodCells[k]);
  }

  /** The step of the tick that moves the snake and, with wrap on, wraps its
      head keeps the bounds, leaves the head on the board, and only the head
      can have reached the food. */
  lemma AdvanceKeepsInv(s: GameState)
    requires Inv(s) && s.running && !HitsWall(s)
    ensures var w := Advanced(s);
      && Bounds(w) && w.running
      && InGrid(w.snake.body[0])
      && w.food == s.food && w.score == s.score && w.obstacles == s.obstacles && w.power == s.power
      && (w.snake.body[0] != w.food.pos ==> w.food.pos !in w.snake.body)
  {
    var w := Advanced(s);
    var m := AfterUpdate(s);
    assert m.snake.body[1..] == s.snake.body[..|s.snake.body| - 1];
    assert w.snake.body[1..] == m.snake.body[1..];
    assert w.snake.body == [w.snake.body[0]] + w.snake.body[1..];
    if m.snake.wrap {
      WrapHeadIdempotent(m.snake.body);
    }
  }

  /** The level always equals 1 + score / LEVEL_UP_SCORE, so raising the
      score and then running the level check restores it. */
  lemma LevelCatchesUp(oldScore: int, newScore: int)
    requires 0 <= oldScore <= newScore
    ensures Max(1 + oldScore / LEVEL_UP_SCORE, 1 + newScore / LEVEL_UP_SCORE) == 1 + newScore / LEVEL_UP_SCORE
  {
  }

  lemma EatKeepsInv(w: GameState, d: TickDraws)
    requires Bounds(w) && w.running && InGrid(w.snake.body[0]) && Eats(w)
    requires WellFormed(d) && EatFeasible(w, d)
    ensures Inv(AfterEat(w, d))
    ensures AfterEat(w, d).snake.body[0] == w.snake.body[0]
  {
    var g := Fed(w);
    LevelCatchesUp(w.score, g.score);
    var l := AfterLevelUp(g, d.obstacleCells);
    assert l.snake.body[0] == w.snake.body[0];
    if l.level > g.level {
      assert forall i :: 0 <= i < |l.obstacles| ==> l.obstacles[i] in d.obstacleCells;
    } else {
      assert l.obstacles == w.obstacles;
    }
    var r := AfterSpawnFood(l, d.foodCells, d.foodSpecial);
    assert r.food.pos in d.foodCells;
  }

  lemma PickUpKeepsInv(f: GameState)
    requires Inv(f) && f.running
    ensures Inv(AfterPickUp(f))
    ensures AfterPickUp(f).snake.body[0] == f.snake.body[0]
  {
    if PicksUp(f) && f.power.value.kind == Shrink {
      var body := f.snake.body;
      if f.food.pos in Shrunk(body, SHRINK_AMOUNT) {
        ShrunkSubset(body, SHRINK_AMOUNT, f.food.pos);
      }
    }
  }

  lemma SpawnPowerUpKeepsInv(p: GameState, d: TickDraws)
    requires Inv(p) && WellFormed(d)
    ensures Inv(AfterSpawnPowerUp(p, d))
  {
    if p.power.None? && d.spawnPowerUp {
      var c := FirstAllowedWithin(d.powerCells, PowerRule(p), MAX_POWER_UP_ATTEMPTS);
      if c.Some? {
        assert c.value in d.powerCells;
      }
    }
  }

  /** Every tick keeps the invariant: in particular a tick the snake survives
      leaves its head on the board and the food off the snake. */
  lemma TickPreservesInv(s: GameState, d: TickDraws)
    requires Inv(s) && TickFeasible(s, d)
    ensures Inv(AfterTick(s, d))
  {
    if Live(s) && !HitsWall(s) {
      AdvanceKeepsInv(s);
      var w := Advanced(s);
      if !Crashes(w) {
        var f := if Eats(w) then AfterEat(w, d) else w;
        if Eats(w) {
          EatKeepsInv(w, d);
        }
        PickUpKeepsInv(f);
        SpawnPowerUpKeepsInv(AfterPickUp(f), d);
      }
    }
  }

  /** The commands and the timer callbacks keep the invariant too. */
  lemma CommandsKeepInv(s: GameState, d: Option<Direction>)
    requires Inv(s)
    ensures Inv(AfterTogglePause(s)) && Inv(AfterQueueDirection(s, d)) && Inv(AfterToggleWrap(s))
    ensures Inv(AfterExpiry(s)) && Inv(AfterRestore(s)) && Inv(AfterGameOver(s))
  {
  }

  // ---------------------------------------------------------------------------
  // The order of the tick

  /** A tick does nothing while the game is paused or over. */
  lemma IdleTickChangesNothing(s: GameState, d: TickDraws)
    requires TickFeasible(s, d) && (!s.running || s.paused)
    ensures AfterTick(s, d) == s
  {
  }

  /** With wrap off, a head that steps off the board ends the game right after
      the move: score, food, obstacles and power-up are untouched. */
  lemma WallHitEndsGame(s: GameState, d: TickDraws)
    requires TickFeasible(s, d) && Live(s) && !s.snake.wrap
    requires !InGrid(Step(s.snake.body[0], Upcoming(s.snake.queue, s.snake.dir)))
    ensures var r := AfterTick(s, d);
      && !r.running
      && r.snake == Updated(s.snake)
      && r.score == s.score && r.level == s.level && r.food == s.food
      && r.obstacles == s.obstacles && r.power == s.power
      && r.highScore == Max(s.highScore, s.score)
  {
  }

  /** With wrap on the wall never ends the game: the head is wrapped onto the board. */
  lemma WrapNeverHitsWall(s: GameState)
    requires |s.snake.body| >= 1 && s.snake.wrap
    ensures !HitsWall(s)
    ensures InGrid(Advanced(s).snake.body[0])
  {
    WrapHeadIdempotent(AfterUpdate(s).snake.body);
  }

  /** A head on an obstacle or on the body ends the game before food or
      power-up are looked at. */
  lemma CrashEndsGame(s: GameState, d: TickDraws)
    requires TickFeasible(s, d) && Live(s) && !HitsWall(s) && Crashes(Advanced(s))
    ensures var r := AfterTick(s, d);
      && !r.running
      && r.snake == Advanced(s).snake
      && r.score == s.score && r.level == s.level && r.tickMs == s.tickMs && r.food == s.food
      && r.obstacles == s.obstacles && r.power == s.power
  {
  }

  /** Eating: the score rises by the food's points, the level follows the
      score, the new food is off the snake and the obstacles, and unless a
      power-up is picked up in the same tick the snake is longer by the food's
      growth. */
  lemma EatingFood(s: GameState, d: TickDraws)
    requires Inv(s) && TickFeasible(s, d) && Live(s) && !HitsWall(s)
    requires !Crashes(Advanced(s)) && Eats(Advanced(s))
    ensures var r := AfterTick(s, d);
      && r.running
      && r.score == s.score + Points(s.food)
      && r.level == 1 + r.score / LEVEL_UP_SCORE
      && r.food.special == d.foodSpecial && r.food.pos !in r.snake.body && r.food.pos !in r.obstacles
      && (!PicksUp(AfterEat(Advanced(s), d)) ==> |r.snake.body| == |s.snake.body| + Growth(s.food))
      && (!PicksUp(AfterEat(Advanced(s), d)) ==> r.snake.body == Grown(Advanced(s).snake.body, Growth(s.food)))
  {
    var w := Advanced(s);
    AdvanceKeepsInv(s);
    EatKeepsInv(w, d);
    EatStep(w, d);
    PickUpThenSpawn(AfterEat(w, d), d);
  }

  /** The food branch on its own: the score rises by the food's points, the
      snake grows by the food's growth, and the new food lies on neither the
      snake nor an obstacle. */
  lemma EatStep(w: GameState, d: TickDraws)
    requires |w.snake.body| >= 1 && EatFeasible(w, d)
    ensures var f := AfterEat(w, d);
      && f.score == w.score + Points(w.food)
      && f.snake.body == Grown(w.snake.body, Growth(w.food))
      && f.food.special == d.foodSpecial && f.food.pos !in f.snake.body && f.food.pos !in f.obstacles
      && f.running == w.running && f.power == w.power && f.highScore == w.highScore
      && f.level >= w.level
  {
  }

  /** The end of a tick the snake survives: picking up and spawning a
      power-up keep the score, the level, the food and the high score; the
      snake and the obstacles change only on a pick-up, and never onto the food. */
  lemma PickUpThenSpawn(f: GameState, d: TickDraws)
    requires |f.snake.body| >= 1 && MAX_POWER_UP_ATTEMPTS <= |d.powerCells|
    ensures var r := AfterSpawnPowerUp(AfterPickUp(f), d);
      && r.score == f.score && r.level == f.level && r.food == f.food
      && r.highScore == f.highScore && r.running == f.running
      && (!PicksUp(f) ==> r.snake == f.snake && r.obstacles == f.obstacles)
      && (f.food.pos !in f.snake.body ==> f.food.pos !in r.snake.body)
      && (f.food.pos !in f.obstacles ==> f.food.pos !in r.obstacles)
  {
    if PicksUp(f) && f.power.value.kind == Shrink && f.food.pos in Shrunk(f.snake.body, SHRINK_AMOUNT) {
      ShrunkSubset(f.snake.body, SHRINK_AMOUNT, f.food.pos);
    }
  }

  /** A tick that neither ends the game nor eats keeps the score, the level
      and the food, and unless a power-up is picked up the length and the
      obstacles too. */
  lemma NotEating(s: GameState, d: TickDraws)
    requires Inv(s) && TickFeasible(s, d) && Live(s) && !HitsWall(s)
    requires !Crashes(Advanced(s)) && !Eats(Advanced(s))
    ensures var r := AfterTick(s, d);
      && r.running && r.score == s.score && r.level == s.level && r.food == s.food
      && (!PicksUp(Advanced(s)) ==> |r.snake.body| == |s.snake.body| && r.obstacles == s.obstacles)
      && (!PicksUp(Advanced(s)) ==> r.snake == Advanced(s).snake)
  {
    PickUpThenSpawn(Advanced(s), d);
  }

  /** Score, level and high score never go down. */
  lemma ProgressNeverReverses(s: GameState, d: TickDraws)
    requires Inv(s) && TickFeasible(s, d)
    ensures var r := AfterTick(s, d);
      r.score >= s.score && r.level >= s.level && r.highScore >= s.highScore
  {
    if Live(s) && !HitsWall(s) {
      var w := Advanced(s);
      if !Crashes(w) {
        if Eats(w) {
          EatStep(w, d);
          PickUpThenSpawn(AfterEat(w, d), d);
        } else {
          PickUpThenSpawn(w, d);
        }
      }
    }
  }

  // ---------------------------------------------------------------------------
  // Progression

  /** The interval of any level is within [MIN_TICK_MS, BASE_TICK_MS] and
      shrinks as the level rises. */
  lemma LevelTickMsBounds(a: int, b: int)
    requires 1 <= a <= b
    ensures MIN_TICK_MS <= LevelTickMs(b) <= LevelTickMs(a) <= BASE_TICK_MS
  {
  }

  /** Reaching a score of 5 at level 1 gives level 2, a 95 ms interval and one
      more obstacle. */
  lemma FirstLevelUp(s: GameState, draws: seq<Cell>)
    requires s.level == 1 && s.score == 5 && LevelUpFeasible(s, draws)
    ensures var r := AfterLevelUp(s, draws);
      r.level == 2 && r.tickMs == 95 && |r.obstacles| == Min(MAX_OBSTACLES, |s.obstacles| + 1)
  {
  }

  // ---------------------------------------------------------------------------
  // Power-ups

  /** A speed boost shortens the interval, never below MIN_TICK_MS, and its
      restore brings back the interval it saved. */
  lemma SpeedBoostRestores(s: GameState, c: Cell)
    requires |s.snake.body| >= 1 && MIN_TICK_MS <= s.tickMs <= BASE_TICK_MS
    ensures var b := AfterApplyPowerUp(s, PowerUp(c, SpeedBoost));
      && MIN_TICK_MS <= b.tickMs <= s.tickMs
      && (s.tickMs > MIN_TICK_MS ==> b.tickMs < s.tickMs)
      && AfterRestore(b).tickMs == s.tickMs
      && AfterRestore(b).timer == NoTimer
      && b == s.(tickMs := Max(MIN_TICK_MS, s.tickMs - SPEED_BOOST_AMOUNT), timer := RestorePending(s.tickMs))
  {
  }

  /** A second boost before the first is restored saves the boosted interval,
      so after its restore the game stays faster than before. */
  lemma StackedBoostStaysFast(s: GameState, c: Cell)
    requires |s.snake.body| >= 1 && s.tickMs == BASE_TICK_MS
    ensures var twice := AfterApplyPowerUp(AfterApplyPowerUp(s, PowerUp(c, SpeedBoost)), PowerUp(c, SpeedBoost));
      twice.tickMs == MIN_TICK_MS && AfterRestore(twice).tickMs == BASE_TICK_MS - SPEED_BOOST_AMOUNT
  {
  }

  /** Spawning a power-up takes over the timer slot, so a pending speed restore
      never fires and the boosted interval stays. */
  lemma SpawnCancelsRestore(s: GameState, d: TickDraws)
    requires MAX_POWER_UP_ATTEMPTS <= |d.powerCells| && s.timer.RestorePending?
    requires s.power.None? && d.spawnPowerUp
    requires FirstAllowedWithin(d.powerCells, PowerRule(s), MAX_POWER_UP_ATTEMPTS).Some?
    ensures var r := AfterSpawnPowerUp(s, d);
      r.timer == ExpiryPending && AfterRestore(r) == r && r.tickMs == s.tickMs
  {
  }

  /** SHRINK removes SHRINK_AMOUNT tail cells, keeping at least the head. */
  lemma ShrinkPowerUp(s: GameState, c: Cell)
    requires |s.snake.body| >= 1
    ensures var r := AfterApplyPowerUp(s, PowerUp(c, Shrink));
      && |r.snake.body| == Max(1, |s.snake.body| - SHRINK_AMOUNT)
      && r.snake.body == s.snake.body[..|r.snake.body|]
      && r.score == s.score && r.tickMs == s.tickMs && r.obstacles == s.obstacles
      && r == s.(snake := s.snake.(body := r.snake.body))
  {
  }

  /** CLEAR_OBSTACLES empties the obstacles and, because it counts them after
      clearing, leaves the score as it was. */
  lemma ClearObstaclesAddsNothing(s: GameState, c: Cell)
    requires |s.snake.body| >= 1
    ensures var r := AfterApplyPowerUp(s, PowerUp(c, ClearObstacles));
      r.obstacles == [] && r.score == s.score && r.snake == s.snake && r.tickMs == s.tickMs
  {
  }

  /** A picked-up power-up leaves the board. */
  lemma PickUpDeactivates(s: GameState)
    requires |s.snake.body| >= 1 && PicksUp(s)
    ensures AfterPickUp(s).power.None?
  {
  }

  /** maybeSpawnPowerUp leaves a power-up on the board alone; a new one lies
      on none of snake, obstacles and food, is one of the first
      MAX_POWER_UP_ATTEMPTS draws, and starts its expiry timer; when all those
      draws are taken, nothing spawns. */
  lemma PowerUpPlacement(s: GameState, d: TickDraws)
    requires MAX_POWER_UP_ATTEMPTS <= |d.powerCells|
    ensures var r := AfterSpawnPowerUp(s, d);
      && (s.power.Some? ==> r == s)
      && (r != s ==> && s.power.None? && d.spawnPowerUp && r.power.Some?
                     && r.power.value.pos !in s.snake.body
                     && r.power.value.pos !in s.obstacles
                     && r.power.value.pos != s.food.pos
                     && r.power.value.pos in d.powerCells[..MAX_POWER_UP_ATTEMPTS]
                     && r.power.value.kind == d.powerKind
                     && r.timer == ExpiryPending)
      && ((forall j :: 0 <= j < MAX_POWER_UP_ATTEMPTS ==> !Allows(PowerRule(s), d.powerCells[j])) ==> r == s)
      && ((s.power.None? && d.spawnPowerUp &&
           exists j :: 0 <= j < MAX_POWER_UP_ATTEMPTS && Allows(PowerRule(s), d.powerCells[j])) ==> r.power.Some?)
  {
  }

  /** The expiry callback removes the power-up on the board; once the slot
      holds anything else it does nothing. */
  lemma ExpiryClearsPowerUp(s: GameState)
    ensures s.timer == ExpiryPending ==> AfterExpiry(s).power.None? && AfterExpiry(s).timer == NoTimer
    ensures s.timer != ExpiryPending ==> AfterExpiry(s) == s
  {
  }

  /** Pausing twice changes nothing, and a paused game ignores ticks. */
  lemma PauseToggles(s: GameState, d: TickDraws)
    requires TickFeasible(s, d) && !s.paused
    ensures AfterTogglePause(AfterTogglePause(s)) == s
    ensures AfterTick(AfterTogglePause(s), d) == AfterTogglePause(s)
  {
  }
}
