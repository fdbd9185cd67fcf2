/**
 * pacman_game/maze.py: the older maze that keeps walls and dots in one grid
 * (1 = wall, 2 = dot, 0 = eaten) and clears dots in place.
 */
module Mazes {
  import opened Config
  import opened Geometry
  import opened Levels

  /** Points of one dot (a literal 10 in maze.py). */
  const POINTS_PER_DOT := 10

  /**
   * A maze's state is consistent when its shape and its walls are those of
   * the map, and every dot no longer on the grid has been counted as collected.
   */
  ghost predicate Consistent(grid: Grid, totalDots: int, dotsCollected: int) {
    && |grid| == GRID_ROWS && |grid[0]| == GRID_COLS
    && (forall gx, gy :: Levels.IsWall(grid, gx, gy) == Levels.IsWall(LEVEL_MAP, gx, gy))
    && 0 <= dotsCollected
    && Count(grid, 2) + dotsCollected == totalDots
  }

  /** `[row[:] for row in level_map]`: a grid whose rows are those of `m`. */
  function CopyRows(m: Grid): (g: Grid)
    ensures |g| == |m| && forall i :: 0 <= i < |m| ==> g[i] == m[i]
  {
    seq(|m|, i requires 0 <= i < |m| => m[i])
  }

  /** The copy is the map itself. */
  lemma CopyIsMap()
    ensures CopyRows(LEVEL_MAP) == LEVEL_MAP
  {
  }

  /** A fresh copy of the map with all of its dots counted and none collected is consistent. */
  lemma StartConsistent()
    ensures Consistent(CopyRows(LEVEL_MAP), Count(CopyRows(LEVEL_MAP), 2), 0)
  {
    MapShape();
  }

  class Maze {
    var grid: Grid
    var totalDots: int
    var dotsCollected: int

    /**
     * The maze's invariant: its shape and its walls are those of the map, and
     * every dot no longer on the grid has been counted as collected.
     */
    ghost predicate Valid()
      reads this
    {
      Consistent(grid, totalDots, dotsCollected)
    }

    /**
     * `Maze.__init__`: a copy of the map (equal to it, see `CopyIsMap`), all
     * of its dots counted.
     */
    constructor ()
      ensures Valid()
      ensures grid == CopyRows(LEVEL_MAP) && totalDots == Count(grid, 2) && dotsCollected == 0
    {
      grid := CopyRows(LEVEL_MAP);
      totalDots, dotsCollected := 0, 0;
      new;
      totalDots := Count(grid, 2);
      assert Valid() by { StartConsistent(); }
    }

    /** `Maze.is_wall`: the same query as `Level.is_wall`, on the maze's grid. */
    predicate IsWall(gx: int, gy: int): (wall: bool)
      reads this
      ensures !wall ==> InBounds(grid, gx, gy)
      ensures Valid() ==> (wall <==> Levels.IsWall(LEVEL_MAP, gx, gy))
    {
      Levels.IsWall(grid, gx, gy)
    }

    /** `Maze.can_move_to`: the same four-corner test as `Level.can_move_to`. */
    predicate CanMoveTo(x: int, y: int, radius: int): (ok: bool)
      reads this
      ensures ok ==> InBounds(grid, CellOf(x - radius), CellOf(y - radius)) && InBounds(grid, CellOf(x + radius), CellOf(y + radius))
      ensures Valid() ==> (ok <==> Levels.CanMoveTo(LEVEL_MAP, x, y, radius))
    {
      Levels.CanMoveTo(grid, x, y, radius)
    }

    /** `collect_dot`: at half-pixel position (x, y), eat the dot of that cell if there is one. */
    method CollectDot(x: int, y: int) returns (points: int)
      requires Valid()
      modifies this
      ensures Valid()
      ensures totalDots == old(totalDots)
      ensures var gx, gy := CellOf(x), CellOf(y);
        if InBounds(old(grid), gx, gy) && old(grid)[gy][gx] == 2 then
          && points == POINTS_PER_DOT
          && grid == old(grid)[gy := old(grid)[gy][gx := 0]]
          && dotsCollected == old(dotsCollected) + 1
        else
          points == 0 && grid == old(grid) && dotsCollected == old(dotsCollected)
      ensures forall gx, gy :: IsWall(gx, gy) == old(IsWall(gx, gy))
    {
      var gx := CellOf(x);
      var gy := CellOf(y);
      if 0 <= gy < |grid| && 0 <= gx < |grid[0]| {
        if grid[gy][gx] == 2 {
          CountClear(grid, gy, gx, 2, 0);
          grid := grid[gy := grid[gy][gx := 0]];
          dotsCollected := dotsCollected + 1;
          return POINTS_PER_DOT;
        }
      }
      return 0;
    }
  }

  /**
   * A valid maze, whatever it has eaten, answers every wall query exactly as
   * the walls-only grid of a new `Level`: the two grid classes agree.
   */
  lemma MazeAgreesWithLevel(m: Maze, gx: int, gy: int)
    requires m.Valid()
    ensures m.IsWall(gx, gy) == Levels.IsWall(NewLevel(), gx, gy)
  {
    WallsOnlyKeepsWalls(LEVEL_MAP, gx, gy);
  }
}
