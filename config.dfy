/** Game constants, as GameConfig declares them, plus the literal bounds the
    snake and the panel hard-code. */
module Config {
  // Board size in cells.
  const COLS: int := 28
  const ROWS: int := 24

  // Tick interval in milliseconds and how it changes.
  const BASE_TICK_MS: int := 100
  const MIN_TICK_MS: int := 20
  const SPEEDUP_STEP: int := 5

  // Progression.
  const LEVEL_UP_SCORE: int := 5
  const INITIAL_OBSTACLES: int := 6

  // Power-up effects.
  const SPEED_BOOST_AMOUNT: int := 40
  const SHRINK_AMOUNT: int := 3

  // Literals in Snake.queueDirection and in GamePanel.
  const MAX_QUEUED: int := 3
  const MAX_OBSTACLES: int := 30
  const MAX_POWER_UP_ATTEMPTS: int := 50

  // Growth and points for eating special and plain food.
  const SPECIAL_GROWTH: int := 3
  const PLAIN_GROWTH: int := 1
  const SPECIAL_POINTS: int := 5
  const PLAIN_POINTS: int := 1
}
