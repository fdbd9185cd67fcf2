/**
 * Game parameters of pacman_game/config.py, and the same quantities in the
 * half-pixel unit that the model uses for every on-screen coordinate.
 *
 * Positions in the game are floats of the form `k + 0.5 * n` (a tile corner
 * plus 15.0, moved by 2 or by 1.5 per tick), so twice a position is always an
 * integer: the model stores every position, speed and radius doubled.
 */
module Config {

  const TILE_SIZE := 30
  const GRID_COLS := 20
  const GRID_ROWS := 20

  const PLAYER_SPEED := 2
  const PLAYER_RADIUS_OFFSET := 4
  const GHOST_RADIUS_OFFSET := 4

  const POINTS_PER_PELLET := 10

  const SCATTER_DURATION := 420
  const CHASE_DURATION := 1200
  const PATHFINDING_UPDATE_INTERVAL := 10

  /** TILE_SIZE in half-pixels. */
  const TILE_HP := 2 * TILE_SIZE
  /** Half of a tile, the offset from a tile corner to its centre, in half-pixels. */
  const TILE_CENTRE_HP := TILE_SIZE
  /** PLAYER_SPEED (2 pixels per tick) in half-pixels. */
  const PLAYER_SPEED_HP := 2 * PLAYER_SPEED
  /** GHOST_SPEED (1.5 pixels per tick) in half-pixels. */
  const GHOST_SPEED_HP := 3
  /** TILE_SIZE // 2 - PLAYER_RADIUS_OFFSET (11 pixels) in half-pixels. */
  const PLAYER_RADIUS_HP := 2 * (TILE_SIZE / 2 - PLAYER_RADIUS_OFFSET)
  /** TILE_SIZE // 2 - GHOST_RADIUS_OFFSET (11 pixels) in half-pixels. */
  const GHOST_RADIUS_HP := 2 * (TILE_SIZE / 2 - GHOST_RADIUS_OFFSET)
}
