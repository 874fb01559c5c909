/**
 * The game configuration of lifepong/config/settings.py as module constants.
 * Python's `//` on the positive screen and cell sizes is Dafny's `/`.
 */
module Config {
  // Screen
  const SCREEN_WIDTH: int := 1200
  const SCREEN_HEIGHT: int := 600

  // Grid
  const CELL_SIZE: int := 10
  const PLACING_WIDTH: int := 40
  const GRID_WIDTH: int := SCREEN_WIDTH / CELL_SIZE
  const GRID_HEIGHT: int := SCREEN_HEIGHT / CELL_SIZE

  // Ball physics
  const BALL_RADIUS: int := 9
  const BALL_BASE_SPEED: real := 6.0
  const BALL_MAX_SPEED: real := 12.0
  const BALL_ACCELERATION: real := 0.15
  const BALL_ACCEL_INTERVAL: int := 120
  const COLLISION_COOLDOWN: int := 5

  // Game rules
  const STARTING_CELLS: int := 40
  const RESTART_CELLS: int := 20
  const MAX_CELLS: int := 300
  const LIFE_UPDATE_INTERVAL: int := 3

  // Cell health
  const CELL_MAX_HEALTH: int := 3
  const BALL_DAMAGE_BASE: int := 1
  const BALL_DAMAGE_SPEED_BONUS: bool := true

  // Visual effects that the simulation keeps state for
  const TRAIL_LENGTH: int := 15
}
