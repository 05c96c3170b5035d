/** The GamePanel object: the game's fields, updated in place by the tick,
    the key commands and the timer callbacks.  Every method is proved against
    the GameRules function for the same step, so the laws proved in GameLaws
    hold of the object too. */
module Panels {
  import opened Config
  import opened Wrappers
  import opened Grid
  import opened SnakeRules
  import opened Placement
  import opened GameRules
  import opened GameLaws
  import opened Snakes

  class GamePanel {
    var snake: Snake
    var food: Food
    var obstacles: seq<Cell>
    var activePower: Option<PowerUp>
    var running: bool
    var paused: bool
    var score: int
    var level: int
    var tickMs: int
    var highScore: int
    var powerUpTimer: PowerTimer

    /** The panel's fields, with the snake's, as one value. */
    function Snapshot(): GameState
      reads this, snake
    {
      GameState(snake.Model(), food, obstacles, activePower, running, paused,
                score, level, tickMs, highScore, powerUpTimer)
    }

    ghost predicate Valid()
      reads this, snake
    {
      snake.Valid() && Inv(Snapshot())
    }

    /** The panel starts with no obstacles and no power-up, then runs initGame;
        loaded is what the high-score store returns. */
    constructor (loaded: int, d: InitDraws)
      requires InitFeasible([], d)
      ensures Valid()
      ensures Snapshot() == AfterInit(Blank(loaded), loaded, d)
    {
      snake := new Snake(COLS / 2, ROWS / 2);
      food := Food(Cell(0, 0), false);
      obstacles := [];
      activePower := None;
      running := false;
      paused := false;
      score := 0;
      level := 1;
      tickMs := BASE_TICK_MS;
      highScore := loaded;
      powerUpTimer := NoTimer;
      new;
      InitGame(loaded, d);
    }

    /** Starts a new game (also the restart after a game over). */
    method InitGame(loaded: int, d: InitDraws)
      requires InitFeasible(obstacles, d)
      requires activePower.Some? ==> InGrid(activePower.value.pos)
      modifies this
      ensures fresh(snake) && Valid()
      ensures Snapshot() == AfterInit(old(Snapshot()), loaded, d)
    {
      ghost var prev := Snapshot();
      powerUpTimer := NoTimer;
      highScore := Max(0, loaded);
      snake := new Snake(COLS / 2, ROWS / 2);
      assert Snapshot() == Restarted(prev, loaded);
      SpawnFood(d.foodCells, d.foodSpecial);
      SpawnObstacles(INITIAL_OBSTACLES, d.obstacleCells);
      ResetCounters();
      InitEstablishesInv(prev, loaded, d);
    }

    /** The end of initGame: the counters start over and the game runs. */
    method ResetCounters()
      modifies this
      ensures snake == old(snake)
      ensures Snapshot() == old(Snapshot()).(score := 0, level := 1, tickMs := BASE_TICK_MS, running := true, paused := false)
    {
      score := 0;
      level := 1;
      tickMs := BASE_TICK_MS;
      running := true;
      paused := false;
    }

    /** Draws cells until one is on neither the snake nor an obstacle. */
    method SpawnFood(draws: seq<Cell>, special: bool)
      requires SpawnFoodFeasible(Snapshot(), draws)
      modifies this
      ensures snake == old(snake)
      ensures Snapshot() == AfterSpawnFood(old(Snapshot()), draws, special)
    {
      var p, _ := DrawCell(draws, FoodRule(Snapshot()));
      food := Food(p, special);
    }

    /** Whether an obstacle stands on p. */
    function ObstaclesContains(p: Cell): (r: bool)
      reads this
      ensures r <==> exists i :: 0 <= i < |obstacles| && obstacles[i] == p
    {
      p in obstacles
    }

    /** Replaces the obstacles by n cells, each drawn until it is off the snake. */
    method SpawnObstacles(n: nat, draws: seq<Cell>)
      requires n <= |Allowed(draws, SnakeOnly(Snapshot()))|
      modifies this
      ensures snake == old(snake)
      ensures Snapshot() == AfterSpawnObstacles(old(Snapshot()), n, draws)
    {
      obstacles := [];
      obstacles := DrawCells(n, draws, SnakeOnly(Snapshot()));
    }

    /** With no power-up on the board and the coin up, tries up to
        MAX_POWER_UP_ATTEMPTS cells and arms the expiry timer. */
    method MaybeSpawnPowerUp(d: TickDraws)
      requires MAX_POWER_UP_ATTEMPTS <= |d.powerCells|
      modifies this
      ensures snake == old(snake)
      ensures Snapshot() == AfterSpawnPowerUp(old(Snapshot()), d)
    {
      if activePower.Some? {
        return;
      }
      if d.spawnPowerUp {
        var spot := DrawCellWithin(d.powerCells, PowerRule(Snapshot()), MAX_POWER_UP_ATTEMPTS);
        if spot.None? {
          return;
        }
        activePower := Some(PowerUp(spot.value, d.powerKind));
        powerUpTimer := ExpiryPending;
      }
    }

    /** The obstacle loop of the tick: whether the head is on an obstacle. */
    method HitsObstacle() returns (hit: bool)
      requires |snake.body| >= 1
      ensures hit <==> snake.body[0] in obstacles
    {
      for i := 0 to |obstacles|
        invariant snake.body[0] !in obstacles[..i]
      {
        if snake.Head() == obstacles[i] {
          return true;
        }
      }
      return false;
    }

    /** One timer tick. */
    method Tick(d: TickDraws)
      requires Valid() && TickFeasible(Snapshot(), d)
      modifies this, snake
      ensures snake == old(snake) && Valid()
      ensures Snapshot() == AfterTick(old(Snapshot()), d)
    {
      ghost var s := Snapshot();
      TickPreservesInv(s, d);
      if !running || paused {
        return;
      }
      snake.Update();
      ghost var m := Snapshot();
      assert m == AfterUpdate(s);
      if !snake.wrap {
        if snake.OutOfBounds() {
          assert HitsWall(s);
          GameOver();
          assert Snapshot() == AfterGameOver(m);
          return;
        }
      } else {
        snake.WrapPosition(COLS, ROWS);
      }
      ghost var w := Snapshot();
      assert w == Advanced(s) && !HitsWall(s);
      var hit := HitsObstacle();
      if hit {
        GameOver();
        assert Snapshot() == AfterGameOver(w);
        return;
      }
      if snake.SelfCollision() {
        GameOver();
        assert Snapshot() == AfterGameOver(w);
        return;
      }
      assert !Crashes(w);
      if snake.Head() == food.pos {
        EatFood(d);
      }
      ghost var f := Snapshot();
      assert f == if Eats(w) then AfterEat(w, d) else w;
      PickUpPowerUp();
      assert Snapshot() == AfterPickUp(f);
      MaybeSpawnPowerUp(d);
    }

    /** The pick-up branch of the tick: a head on the power-up applies it and
        takes it off the board. */
    method PickUpPowerUp()
      requires snake.Valid()
      modifies this, snake
      ensures snake == old(snake) && snake.Valid()
      ensures Snapshot() == AfterPickUp(old(Snapshot()))
    {
      if activePower.Some? && snake.Head() == activePower.value.pos {
        ApplyPowerUp(activePower.value);
        activePower := None;
      }
    }

    /** The food branch of the tick: grow, score, level check, new food. */
    method EatFood(d: TickDraws)
      requires snake.Valid() && EatFeasible(Snapshot(), d)
      modifies this, snake
      ensures snake == old(snake) && snake.Valid()
      ensures Snapshot() == AfterEat(old(Snapshot()), d)
    {
      ghost var w := Snapshot();
      snake.Grow(if food.special then SPECIAL_GROWTH else PLAIN_GROWTH);
      score := score + if food.special then SPECIAL_POINTS else PLAIN_POINTS;
      assert Snapshot() == Fed(w);
      MaybeLevelUp(d.obstacleCells);
      SpawnFood(d.foodCells, d.foodSpecial);
    }

    /** The effect of a picked-up power-up. */
    method ApplyPowerUp(p: PowerUp)
      requires snake.Valid()
      modifies this, snake
      ensures snake == old(snake) && snake.Valid()
      ensures Snapshot() == AfterApplyPowerUp(old(Snapshot()), p)
    {
      match p.kind
      case SpeedBoost =>
        var originalSpeed := tickMs;
        tickMs := Max(MIN_TICK_MS, tickMs - SPEED_BOOST_AMOUNT);
        powerUpTimer := RestorePending(originalSpeed);
      case Shrink =>
        snake.Shrink(SHRINK_AMOUNT);
      case ClearObstacles =>
        obstacles := [];
        score := score + |obstacles|;
    }

    /** A higher level from the score: faster ticks and one more obstacle. */
    method MaybeLevelUp(draws: seq<Cell>)
      requires LevelUpFeasible(Snapshot(), draws)
      modifies this
      ensures snake == old(snake)
      ensures Snapshot() == AfterLevelUp(old(Snapshot()), draws)
    {
      var newLevel := 1 + score / LEVEL_UP_SCORE;
      if newLevel > level {
        level := newLevel;
        tickMs := Max(MIN_TICK_MS, BASE_TICK_MS - (level - 1) * SPEEDUP_STEP);
        SpawnObstacles(Min(MAX_OBSTACLES, |obstacles| + 1), draws);
      }
    }

    /** Stops the game, cancels the power-up timer and keeps the best score. */
    method GameOver()
      modifies this
      ensures snake == old(snake)
      ensures Snapshot() == AfterGameOver(old(Snapshot()))
    {
      running := false;
      powerUpTimer := NoTimer;
      if score > highScore {
        highScore := score;
      }
    }

    /** The P key. */
    method TogglePause()
      requires Valid()
      modifies this
      ensures snake == old(snake)
      ensures Valid()
      ensures Snapshot() == AfterTogglePause(old(Snapshot()))
    {
      CommandsKeepInv(Snapshot(), None);
      paused := !paused;
    }

    /** An arrow key. */
    method QueueDirection(d: Option<Direction>)
      requires Valid()
      modifies snake
      ensures Valid()
      ensures Snapshot() == AfterQueueDirection(old(Snapshot()), d)
    {
      CommandsKeepInv(Snapshot(), d);
      snake.QueueDirection(d);
    }

    /** The space bar. */
    method ToggleWrap()
      requires Valid()
      modifies snake
      ensures Valid()
      ensures Snapshot() == AfterToggleWrap(old(Snapshot()))
    {
      CommandsKeepInv(Snapshot(), None);
      snake.ToggleWrap();
    }

    /** The power-up timer fires while it guards the power-up on the board. */
    method ExpirePowerUp()
      requires Valid()
      modifies this
      ensures snake == old(snake)
      ensures Valid()
      ensures Snapshot() == AfterExpiry(old(Snapshot()))
    {
      CommandsKeepInv(Snapshot(), None);
      if powerUpTimer == ExpiryPending {
        if activePower.Some? {
          activePower := None;
        }
        powerUpTimer := NoTimer;
      }
    }

    /** The power-up timer fires while it guards a speed boost. */
    method RestoreSpeed()
      requires Valid()
      modifies this
      ensures snake == old(snake)
      ensures Valid()
      ensures Snapshot() == AfterRestore(old(Snapshot()))
    {
      CommandsKeepInv(Snapshot(), None);
      if powerUpTimer.RestorePending? {
        tickMs := Min(BASE_TICK_MS, powerUpTimer.savedMs);
        powerUpTimer := NoTimer;
      }
    }
  }
}
