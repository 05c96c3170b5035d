/** GamePanel's state and every step it takes, as values: one function per
    step of the tick and per command, the invariant they keep, and the rules
    the tick follows stated as lemmas.  The GamePanel class is proved against
    these functions. */
module GameRules {
  import opened Config
  import opened Wrappers
  import opened Grid
  import opened SnakeRules
  import opened Placement

  /** GamePanel's one powerUpTimer slot: nothing pending, the expiry of the
      power-up on the board, or the restore of a speed boost together with
      the interval it saved. */
  datatype PowerTimer = NoTimer | ExpiryPending | RestorePending(savedMs: int)

  /** The fields of a GamePanel. */
  datatype GameState = GameState(
    snake: SnakeState,
    food: Food,
    obstacles: seq<Cell>,
    power: Option<PowerUp>,
    running: bool,
    paused: bool,
    score: int,
    level: int,
    tickMs: int,
    highScore: int,
    timer: PowerTimer)

  /** The random draws initGame consumes: cells for the food's do-while, the
      special-food coin, cells for the obstacles' do-whiles. */
  datatype InitDraws = InitDraws(foodCells: seq<Cell>, foodSpecial: bool, obstacleCells: seq<Cell>)

  /** The random draws one tick may consume: as for initGame, plus the 5% coin
      for spawning a power-up, the cells its bounded do-while tries, and its kind. */
  datatype TickDraws = TickDraws(
    foodCells: seq<Cell>,
    foodSpecial: bool,
    obstacleCells: seq<Cell>,
    spawnPowerUp: bool,
    powerCells: seq<Cell>,
    powerKind: PowerKind)

  function Max(a: int, b: int): int {
    if a < b then b else a
  }

  function Min(a: int, b: int): int {
    if a < b then a else b
  }

  /** Every cell is on the board: rnd.nextInt(COLS), rnd.nextInt(ROWS). */
  predicate AllInGrid(cells: seq<Cell>) {
    forall i :: 0 <= i < |cells| ==> InGrid(cells[i])
  }

  predicate WellFormed(d: TickDraws) {
    && AllInGrid(d.foodCells)
    && AllInGrid(d.obstacleCells)
    && AllInGrid(d.powerCells)
    && MAX_POWER_UP_ATTEMPTS <= |d.powerCells|
  }

  // ---------------------------------------------------------------------------
  // Invariant

  /** What holds in every state a GamePanel reaches, running or not. */
  predicate Bounds(s: GameState) {
    && |s.snake.body| >= 1
    && |s.snake.queue| <= MAX_QUEUED
    && 0 <= s.score
    && s.level == 1 + s.score / LEVEL_UP_SCORE
    && MIN_TICK_MS <= s.tickMs <= BASE_TICK_MS
    && (s.timer.RestorePending? ==> MIN_TICK_MS <= s.timer.savedMs <= BASE_TICK_MS)
    && |s.obstacles| <= MAX_OBSTACLES
    && AllInGrid(s.obstacles)
    && InGrid(s.food.pos)
    && (s.power.Some? ==> InGrid(s.power.value.pos))
    && 0 <= s.highScore
  }

  /** While the game runs, the head is on the board and the food is not under the snake. */
  predicate Inv(s: GameState) {
    && Bounds(s)
    && (s.running ==> InGrid(s.snake.body[0]) && s.food.pos !in s.snake.body)
  }

  // ---------------------------------------------------------------------------
  // Placement steps

  function SnakeOnly(s: GameState): Exclusion {
    Exclusion(s.snake.body, [], None)
  }

  function FoodRule(s: GameState): Exclusion {
    Exclusion(s.snake.body, s.obstacles, None)
  }

  function PowerRule(s: GameState): Exclusion {
    Exclusion(s.snake.body, s.obstacles, Some(s.food.pos))
  }

  predicate SpawnFoodFeasible(s: GameState, draws: seq<Cell>) {
    exists i :: 0 <= i < |draws| && Allows(FoodRule(s), draws[i])
  }

  /** spawnFood: the first drawn cell on neither the snake nor an obstacle. */
  function AfterSpawnFood(s: GameState, draws: seq<Cell>, special: bool): (r: GameState)
    requires SpawnFoodFeasible(s, draws)
    ensures r == s.(food := r.food)
    ensures r.food.special == special && r.food.pos in draws
    ensures r.food.pos !in s.snake.body && r.food.pos !in s.obstacles
  {
    var k := FirstAllowed(draws, FoodRule(s));
    s.(food := Food(draws[k], special))
  }

  /** spawnObstacles(n): the list is replaced by the first n drawn cells that
      are off the snake; they may repeat, or lie on the food. */
  function AfterSpawnObstacles(s: GameState, n: nat, draws: seq<Cell>): (r: GameState)
    requires n <= |Allowed(draws, SnakeOnly(s))|
    ensures r == s.(obstacles := r.obstacles)
    ensures |r.obstacles| == n
    ensures forall i :: 0 <= i < n ==> r.obstacles[i] !in s.snake.body && r.obstacles[i] in draws
  {
    s.(obstacles := Allowed(draws, SnakeOnly(s))[..n])
  }

  /** maybeSpawnPowerUp: only with no power-up on the board and the 5% coin up;
      the first of at most MAX_POWER_UP_ATTEMPTS drawn cells that avoids the
      snake, the obstacles and the food, and then its expiry timer replaces
      whatever the slot held. */
  function AfterSpawnPowerUp(s: GameState, d: TickDraws): (r: GameState)
    requires MAX_POWER_UP_ATTEMPTS <= |d.powerCells|
    ensures r == s.(power := r.power, timer := r.timer)
    ensures r != s ==> s.power.None? && r.power.Some? && r.timer == ExpiryPending
  {
    if s.power.Some? || !d.spawnPowerUp then s
    else
      match FirstAllowedWithin(d.powerCells, PowerRule(s), MAX_POWER_UP_ATTEMPTS)
      case None => s
      case Some(c) => s.(power := Some(PowerUp(c, d.powerKind)), timer := ExpiryPending)
  }

  // ---------------------------------------------------------------------------
  // Progression

  function NewLevel(s: GameState): int {
    1 + s.score / LEVEL_UP_SCORE
  }

  /** The interval a level runs at. */
  function LevelTickMs(level: int): int {
    Max(MIN_TICK_MS, BASE_TICK_MS - (level - 1) * SPEEDUP_STEP)
  }

  function TargetObstacles(s: GameState): nat {
    Min(MAX_OBSTACLES, |s.obstacles| + 1)
  }

  predicate LevelUpFeasible(s: GameState, draws: seq<Cell>) {
    NewLevel(s) > s.level ==> TargetObstacles(s) <= |Allowed(draws, SnakeOnly(s))|
  }

  /** maybeLevelUp: a higher level from the score speeds the game up and
      respawns one more obstacle, up to MAX_OBSTACLES. */
  function AfterLevelUp(s: GameState, draws: seq<Cell>): (r: GameState)
    requires LevelUpFeasible(s, draws)
    ensures r.level == Max(s.level, NewLevel(s))
    ensures r.snake == s.snake && r.food == s.food && r.score == s.score && r.power == s.power
    ensures r.running == s.running && r.paused == s.paused && r.timer == s.timer
    ensures r.highScore == s.highScore
    ensures r.level == s.level ==> r == s
    ensures r.level > s.level ==> r.tickMs == LevelTickMs(r.level)
    ensures r.level > s.level ==> |r.obstacles| == Min(MAX_OBSTACLES, |s.obstacles| + 1)
    ensures r.level > s.level ==> forall i :: 0 <= i < |r.obstacles| ==>
              r.obstacles[i] !in s.snake.body && r.obstacles[i] in draws
  {
    var newLevel := NewLevel(s);
    if newLevel > s.level then
      AfterSpawnObstacles(s.(level := newLevel, tickMs := LevelTickMs(newLevel)), TargetObstacles(s), draws)
    else s
  }

  // ---------------------------------------------------------------------------
  // Eating and power-ups

  function Growth(f: Food): int {
    if f.special then SPECIAL_GROWTH else PLAIN_GROWTH
  }

  function Points(f: Food): int {
    if f.special then SPECIAL_POINTS else PLAIN_POINTS
  }

  /** The snake grows and the score rises, before the level check. */
  function Fed(s: GameState): (r: GameState)
    requires |s.snake.body| >= 1
  {
    s.(snake := s.snake.(body := Grown(s.snake.body, Growth(s.food))), score := s.score + Points(s.food))
  }

  predicate EatFeasible(s: GameState, d: TickDraws)
    requires |s.snake.body| >= 1
  {
    && LevelUpFeasible(Fed(s), d.obstacleCells)
    && SpawnFoodFeasible(AfterLevelUp(Fed(s), d.obstacleCells), d.foodCells)
  }

  /** The food branch of the tick: grow, score, level check, new food. */
  function AfterEat(s: GameState, d: TickDraws): (r: GameState)
    requires |s.snake.body| >= 1 && EatFeasible(s, d)
    ensures r.score == s.score + Points(s.food)
    ensures r.snake == s.snake.(body := Grown(s.snake.body, Growth(s.food)))
    ensures r.power == s.power && r.timer == s.timer && r.highScore == s.highScore
    ensures r.running == s.running && r.paused == s.paused
  {
    AfterSpawnFood(AfterLevelUp(Fed(s), d.obstacleCells), d.foodCells, d.foodSpecial)
  }

  /** applyPowerUp.  CLEAR_OBSTACLES adds the size of the list read after it
      was cleared, so it adds nothing. */
  function AfterApplyPowerUp(s: GameState, p: PowerUp): (r: GameState)
    requires |s.snake.body| >= 1
    ensures r.food == s.food && r.power == s.power && r.level == s.level && r.highScore == s.highScore
    ensures r.running == s.running && r.paused == s.paused && r.score == s.score
    ensures p.kind != SpeedBoost ==> r.tickMs == s.tickMs && r.timer == s.timer
    ensures p.kind != Shrink ==> r.snake == s.snake
    ensures p.kind != ClearObstacles ==> r.obstacles == s.obstacles
  {
    match p.kind
    case SpeedBoost =>
      s.(tickMs := Max(MIN_TICK_MS, s.tickMs - SPEED_BOOST_AMOUNT), timer := RestorePending(s.tickMs))
    case Shrink =>
      s.(snake := s.snake.(body := Shrunk(s.snake.body, SHRINK_AMOUNT)))
    case ClearObstacles =>
      var cleared := s.(obstacles := []);
      cleared.(score := cleared.score + |cleared.obstacles|)
  }

  predicate PicksUp(s: GameState)
    requires |s.snake.body| >= 1
  {
    s.power.Some? && s.snake.body[0] == s.power.value.pos
  }

  /** The pick-up branch of the tick: apply the effect, then clear the power-up. */
  function AfterPickUp(s: GameState): (r: GameState)
    requires |s.snake.body| >= 1
    ensures !PicksUp(s) ==> r == s
    ensures PicksUp(s) ==> r.power.None?
    ensures r.food == s.food && r.score == s.score && r.level == s.level && r.highScore == s.highScore
    ensures r.running == s.running && r.paused == s.paused
  {
    if PicksUp(s) then AfterApplyPowerUp(s, s.power.value).(power := None) else s
  }

  // ---------------------------------------------------------------------------
  // The tick

  /** gameOver: stop, cancel the power-up timer, keep the best score. */
  function AfterGameOver(s: GameState): (r: GameState)
    ensures !r.running && r.timer == NoTimer
    ensures r.highScore == Max(s.highScore, s.score)
    ensures r == s.(running := false, timer := NoTimer, highScore := r.highScore)
  {
    s.(running := false, timer := NoTimer, highScore := if s.score > s.highScore then s.score else s.highScore)
  }

  predicate Live(s: GameState) {
    s.running && !s.paused
  }

  function AfterUpdate(s: GameState): GameState
    requires |s.snake.body| >= 1
  {
    s.(snake := Updated(s.snake))
  }

  function AfterWrap(s: GameState): GameState
    requires |s.snake.body| >= 1
  {
    s.(snake := s.snake.(body := WrapHead(s.snake.body, COLS, ROWS)))
  }

  /** With wrap off, the moved head has left the board. */
  predicate HitsWall(s: GameState)
    requires |s.snake.body| >= 1
  {
    !s.snake.wrap && !InGrid(AfterUpdate(s).snake.body[0])
  }

  /** The state after the move and, with wrap on, the wrap. */
  function Advanced(s: GameState): (r: GameState)
    requires |s.snake.body| >= 1
    ensures |r.snake.body| == |s.snake.body|
    ensures r == s.(snake := r.snake)
    ensures r.snake.queue == Dequeued(s.snake.queue) && r.snake.wrap == s.snake.wrap
    ensures r.snake.dir == Upcoming(s.snake.queue, s.snake.dir)
    ensures r.snake.body[1..] == s.snake.body[..|s.snake.body| - 1]
    ensures !s.snake.wrap ==> r.snake.body[0] == Step(s.snake.body[0], r.snake.dir)
    ensures s.snake.wrap ==> InGrid(r.snake.body[0])
    ensures s.snake.wrap ==> r.snake.body[0] == Cell(FloorMod(Step(s.snake.body[0], r.snake.dir).x, COLS),
                                                     FloorMod(Step(s.snake.body[0], r.snake.dir).y, ROWS))
  {
    var m := AfterUpdate(s);
    if m.snake.wrap then AfterWrap(m) else m
  }

  /** The head lies on an obstacle or on the rest of the body. */
  predicate Crashes(s: GameState)
    requires |s.snake.body| >= 1
  {
    s.snake.body[0] in s.obstacles || SelfCollides(s.snake.body)
  }

  predicate Eats(s: GameState)
    requires |s.snake.body| >= 1
  {
    s.snake.body[0] == s.food.pos
  }

  /** The draws let every do-while of this tick finish. */
  predicate TickFeasible(s: GameState, d: TickDraws) {
    && WellFormed(d)
    && |s.snake.body| >= 1
    && (Live(s) && !HitsWall(s) && !Crashes(Advanced(s)) && Eats(Advanced(s)) ==>
          EatFeasible(Advanced(s), d))
  }

  /** actionPerformed: move, wall or wrap, obstacle, self, food, pick-up, spawn. */
  function AfterTick(s: GameState, d: TickDraws): (r: GameState)
    requires TickFeasible(s, d)
    ensures r.paused == s.paused
    ensures r.running ==> s.running
  {
    if !Live(s) then s
    else if HitsWall(s) then AfterGameOver(AfterUpdate(s))
    else
      var w := Advanced(s);
      if Crashes(w) then AfterGameOver(w)
      else
        var f := if Eats(w) then AfterEat(w, d) else w;
        AfterSpawnPowerUp(AfterPickUp(f), d)
  }

  // ---------------------------------------------------------------------------
  // Commands and timer callbacks

  function AfterTogglePause(s: GameState): GameState {
    s.(paused := !s.paused)
  }

  function AfterQueueDirection(s: GameState, d: Option<Direction>): GameState {
    s.(snake := Queued(s.snake, d))
  }

  function AfterToggleWrap(s: GameState): GameState {
    s.(snake := s.snake.(wrap := !s.snake.wrap))
  }

  /** The power-up expiry callback, if that is what the slot holds. */
  function AfterExpiry(s: GameState): (r: GameState)
    ensures r == s.(power := r.power, timer := r.timer)
    ensures r.power.Some? ==> r.power == s.power
  {
    if s.timer == ExpiryPending then s.(power := None, timer := NoTimer) else s
  }

  /** The speed-boost restore callback, if that is what the slot holds. */
  function AfterRestore(s: GameState): (r: GameState)
    ensures r == s.(tickMs := r.tickMs, timer := r.timer)
    ensures r != s ==> r.tickMs <= BASE_TICK_MS && r.timer == NoTimer
  {
    if s.timer.RestorePending? then s.(tickMs := Min(BASE_TICK_MS, s.timer.savedMs), timer := NoTimer) else s
  }

  // ---------------------------------------------------------------------------
  // Starting a game

  function StartSnake(): SnakeState {
    InitialSnake(COLS / 2, ROWS / 2)
  }

  predicate InitFeasible(prevObstacles: seq<Cell>, d: InitDraws) {
    && AllInGrid(d.foodCells)
    && AllInGrid(d.obstacleCells)
    && (exists i :: 0 <= i < |d.foodCells| && Allows(Exclusion(StartSnake().body, prevObstacles, None), d.foodCells[i]))
    && INITIAL_OBSTACLES <= |Allowed(d.obstacleCells, Exclusion(StartSnake().body, [], None))|
  }

  /** The fields of a GamePanel before its first initGame: no obstacles, no
      power-up, the counters at their start values and the stored high score.
      The snake and the food are placeholders that initGame replaces. */
  function Blank(loaded: int): GameState {
    GameState(StartSnake(), Food(Cell(0, 0), false), [], None, false, false, 0, 1, BASE_TICK_MS, loaded, NoTimer)
  }

  /** The first steps of initGame: cancel the power-up timer, reload the
      high score, make a new snake. */
  function Restarted(prev: GameState, loaded: int): (r: GameState)
    ensures FoodRule(r) == Exclusion(StartSnake().body, prev.obstacles, None)
  {
    prev.(timer := NoTimer, highScore := Max(0, loaded), snake := StartSnake())
  }

  /** initGame: a new snake, food placed against the obstacle list still on
      the board (it is respawned only afterwards), INITIAL_OBSTACLES
      obstacles, then the counters reset.  The power-up field is kept. */
  function AfterInit(prev: GameState, loaded: int, d: InitDraws): (r: GameState)
    requires InitFeasible(prev.obstacles, d)
    ensures r.score == 0 && r.level == 1 && r.tickMs == BASE_TICK_MS
    ensures r.running && !r.paused && r.timer == NoTimer
    ensures r.snake == StartSnake() && r.power == prev.power && r.highScore == Max(0, loaded)
    ensures |r.obstacles| == INITIAL_OBSTACLES
  {
    var placed := AfterSpawnFood(Restarted(prev, loaded), d.foodCells, d.foodSpecial);
    AfterSpawnObstacles(placed, INITIAL_OBSTACLES, d.obstacleCells).(
      score := 0, level := 1, tickMs := BASE_TICK_MS, running := true, paused := false)
  }
}
