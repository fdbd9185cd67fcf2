/**
 * The static wall grid and the pellet store of pacman_game/level.py.
 *
 * A grid is a list of rows, indexed `grid[row][column]` with cell values
 * 1 = wall, 2 = pellet, 0 = empty. Every query takes cell or half-pixel
 * coordinates and is total: anything outside the grid counts as wall.
 */
module Levels {
  import opened Config
  import opened Geometry

  /** All rows have the length of the first one. */
  predicate Rectangular(g: seq<seq<int>>) {
    forall i :: 0 <= i < |g| ==> |g[i]| == |g[0]|
  }

  type Grid = g: seq<seq<int>> | Rectangular(g) witness []

  /** A row of the map: GRID_COLS cells. */
  type Row = r: seq<int> | |r| == GRID_COLS witness seq(GRID_COLS, _ => 1)

  /** LEVEL_MAP of level.py (identical to level_map of maze.py), row by row. */
  const MAP_ROWS: seq<Row> := MAP_TOP + MAP_BOTTOM

  /** Rows 0 to 9 of the map. */
  const MAP_TOP: seq<Row> := [
    [1, 1, 1, 1, 1, 1, 1, 1, 1, 1, 1, 1, 1, 1, 1, 1, 1, 1, 1, 1],
    [1, 2, 2, 2, 2, 2, 2, 2, 2, 1, 2, 2, 2, 2, 2, 2, 2, 2, 2, 1],
    [1, 2, 1, 1, 1, 2, 1, 1, 2, 1, 2, 1, 1, 2, 1, 1, 1, 1, 2, 1],
    [1, 2, 1, 2, 2, 2, 1, 2, 2, 2, 2, 1, 2, 2, 2, 2, 1, 1, 2, 1],
    [1, 2, 1, 2, 1, 1, 1, 2, 1, 1, 2, 1, 1, 1, 2, 1, 1, 1, 2, 1],
    [1, 2, 2, 2, 2, 2, 2, 2, 2, 2, 2, 2, 2, 2, 2, 2, 2, 2, 2, 1],
    [1, 2, 1, 2, 1, 2, 1, 1, 1, 1, 1, 1, 2, 1, 2, 1, 1, 2, 1, 1],
    [1, 2, 1, 2, 1, 2, 2, 2, 2, 1, 2, 2, 2, 1, 2, 2, 2, 2, 2, 1],
    [1, 2, 1, 2, 2, 2, 1, 1, 2, 2, 2, 1, 1, 2, 2, 1, 1, 1, 2, 1],
    [1, 2, 1, 1, 1, 2, 1, 1, 2, 1, 2, 1, 1, 2, 2, 2, 2, 2, 2, 1]
  ]

  /** Rows 10 to 19 of the map. */
  const MAP_BOTTOM: seq<Row> := [
    [1, 2, 2, 2, 1, 2, 2, 2, 2, 1, 2, 2, 2, 2, 1, 1, 1, 1, 2, 1],
    [1, 2, 1, 2, 1, 1, 1, 1, 2, 1, 1, 1, 1, 2, 1, 2, 2, 2, 2, 1],
    [1, 2, 1, 2, 2, 2, 2, 2, 2, 2, 2, 2, 2, 2, 1, 2, 1, 1, 2, 1],
    [1, 2, 1, 1, 2, 1, 1, 1, 2, 1, 1, 1, 1, 2, 1, 2, 1, 1, 2, 1],
    [1, 2, 2, 2, 2, 2, 2, 1, 2, 1, 2, 2, 2, 2, 2, 2, 2, 2, 2, 1],
    [1, 2, 1, 1, 1, 2, 1, 1, 2, 1, 2, 1, 1, 1, 1, 1, 1, 1, 2, 1],
    [1, 2, 2, 2, 2, 2, 2, 2, 2, 2, 2, 2, 2, 2, 2, 2, 2, 2, 2, 1],
    [1, 2, 1, 1, 1, 1, 1, 1, 1, 1, 1, 1, 1, 1, 1, 1, 1, 1, 2, 1],
    [1, 2, 2, 2, 2, 2, 2, 2, 2, 2, 2, 2, 2, 2, 2, 2, 2, 2, 2, 1],
    [1, 1, 1, 1, 1, 1, 1, 1, 1, 1, 1, 1, 1, 1, 1, 1, 1, 1, 1, 1]
  ]

  /**
   * LEVEL_MAP as a grid: row `r` is `MAP_ROWS[r]`. Built row by row, so that
   * the verifier reads single cells of it rather than unfolding the whole
   * literal whenever a count over the map is mentioned.
   */
  const LEVEL_MAP: Grid := MapGrid()

  function MapGrid(): (g: Grid)
    ensures |g| == GRID_ROWS
    ensures forall r :: 0 <= r < GRID_ROWS ==> g[r] == MAP_ROWS[r]
  {
    seq(GRID_ROWS, MapRow)
  }

  /** The map is GRID_ROWS rows of GRID_COLS cells. */
  lemma MapShape()
    ensures |LEVEL_MAP| == GRID_ROWS && |LEVEL_MAP[0]| == GRID_COLS
  {
  }

  function MapRow(r: int): (row: seq<int>)
    ensures |row| == GRID_COLS
    ensures 0 <= r < GRID_ROWS ==> row == MAP_ROWS[r]
  {
    if 0 <= r < |MAP_ROWS| then MAP_ROWS[r] else seq(GRID_COLS, _ => 1)
  }

  predicate InBounds(g: Grid, gx: int, gy: int) {
    0 <= gy < |g| && 0 <= gx < |g[0]|
  }

  /** `Level.is_wall`: the row is checked first, then the column, then the cell. */
  function IsWall(g: Grid, gx: int, gy: int): (wall: bool)
    ensures !wall ==> InBounds(g, gx, gy)
  {
    if gy < 0 || gy >= |g| then true
    else if gx < 0 || gx >= |g[0]| then true
    else g[gy][gx] == 1
  }

  /**
   * `Level.can_move_to`: the four corners of the square of half-width `radius`
   * around (x, y) (half-pixels) are mapped to cells by truncating division and
   * must all be open.
   */
  function CanMoveTo(g: Grid, x: int, y: int, radius: int): (ok: bool)
    ensures ok ==> InBounds(g, CellOf(x - radius), CellOf(y - radius)) && InBounds(g, CellOf(x + radius), CellOf(y + radius))
  {
    var left, right := CellOf(x - radius), CellOf(x + radius);
    var top, bottom := CellOf(y - radius), CellOf(y + radius);
    !IsWall(g, left, top) && !IsWall(g, right, top) &&
    !IsWall(g, left, bottom) && !IsWall(g, right, bottom)
  }

  /** The grid kept by `Level.__init__`: walls stay 1, pellets and empty cells both become 0. */
  function WallsOnly(m: Grid): (g: Grid)
    ensures |g| == |m|
    ensures forall i :: 0 <= i < |m| ==> |g[i]| == |m[i]|
    ensures forall i, j :: 0 <= i < |m| && 0 <= j < |m[i]| ==> g[i][j] == (if m[i][j] == 1 then 1 else 0)
  {
    seq(|m|, i requires 0 <= i < |m| => seq(|m[i]|, j requires 0 <= j < |m[i]| => if m[i][j] == 1 then 1 else 0))
  }

  /** The pellet grid of `PelletManager.__init__` and `reset`: 1 where the map has a pellet, else 0. */
  function PelletsOf(m: Grid): (g: Grid)
    ensures |g| == |m|
    ensures forall i :: 0 <= i < |m| ==> |g[i]| == |m[i]|
    ensures forall i, j :: 0 <= i < |m| && 0 <= j < |m[i]| ==> g[i][j] == (if m[i][j] == 2 then 1 else 0)
  {
    seq(|m|, i requires 0 <= i < |m| => seq(|m[i]|, j requires 0 <= j < |m[i]| => if m[i][j] == 2 then 1 else 0))
  }

  /** The grid of a freshly constructed `Level`. */
  function NewLevel(): Grid {
    WallsOnly(LEVEL_MAP)
  }

  /** The walls-only grid answers every `is_wall` query exactly as the map it was built from. */
  lemma WallsOnlyKeepsWalls(m: Grid, gx: int, gy: int)
    ensures IsWall(WallsOnly(m), gx, gy) == IsWall(m, gx, gy)
  {
  }

  /**
   * A square of half-width below half a tile that `CanMoveTo` accepts has its
   * centre in an open cell: the centre's cell is one of the corner cells.
   */
  lemma FreeSquareHasOpenCentre(g: Grid, x: int, y: int, radius: int)
    requires 0 <= radius && 2 * radius < TILE_HP
    requires CanMoveTo(g, x, y, radius)
    ensures !IsWall(g, CellOf(x), CellOf(y))
  {
    CellOfMonotone(x - radius, x);
    CellOfMonotone(x, x + radius);
    CellOfSpread(x - radius, x + radius);
    CellOfMonotone(y - radius, y);
    CellOfMonotone(y, y + radius);
    CellOfSpread(y - radius, y + radius);
  }

  /** Number of cells of a row equal to `v`. */
  function CountRow(row: seq<int>, v: int): nat {
    if row == [] then 0 else (if row[0] == v then 1 else 0) + CountRow(row[1..], v)
  }

  /** Number of cells of a grid equal to `v` (Python's `sum(row.count(v) for row in grid)`). */
  function Count(g: seq<seq<int>>, v: int): nat {
    if g == [] then 0 else CountRow(g[0], v) + Count(g[1..], v)
  }

  /** Overwriting one cell holding `v` with another value lowers the row's count of `v` by one. */
  lemma {:induction false} CountRowClear(row: seq<int>, x: int, v: int, w: int)
    requires 0 <= x < |row| && row[x] == v && w != v
    ensures CountRow(row[x := w], v) == CountRow(row, v) - 1
  {
    if x > 0 {
      assert row[x := w][1..] == row[1..][x - 1 := w];
      CountRowClear(row[1..], x - 1, v, w);
    } else {
      assert row[x := w][1..] == row[1..];
    }
  }

  /** Overwriting one cell holding `v` with another value lowers the grid's count of `v` by one. */
  lemma {:induction false} CountClear(g: seq<seq<int>>, y: int, x: int, v: int, w: int)
    requires 0 <= y < |g| && 0 <= x < |g[y]| && g[y][x] == v && w != v
    ensures Count(g[y := g[y][x := w]], v) == Count(g, v) - 1
  {
    if y > 0 {
      assert g[y := g[y][x := w]][1..] == g[1..][y - 1 := g[y][x := w]];
      CountClear(g[1..], y - 1, x, v, w);
    } else {
      assert g[y := g[y][x := w]][1..] == g[1..];
      CountRowClear(g[0], x, v, w);
    }
  }

  /**
   * `PelletManager`: which cells still hold a pellet (1) and how many were collected.
   */
  class PelletManager {
    var pelletGrid: Grid
    var totalPellets: int
    var collectedCount: int

    /** The pellet store's invariant: pellets are only ever removed, and each removal is counted. */
    ghost predicate Valid()
      reads this
    {
      && |pelletGrid| == |LEVEL_MAP| && |pelletGrid[0]| == |LEVEL_MAP[0]|
      && (forall gy, gx :: InBounds(pelletGrid, gx, gy) ==>
            (pelletGrid[gy][gx] == 0 || pelletGrid[gy][gx] == 1) &&
            (pelletGrid[gy][gx] == 1 ==> LEVEL_MAP[gy][gx] == 2))
      && totalPellets == Count(PelletsOf(LEVEL_MAP), 1)
      && 0 <= collectedCount
      && Count(pelletGrid, 1) + collectedCount == totalPellets
    }

    /** `PelletManager.__init__`: every pellet of the map is present and none is collected. */
    constructor ()
      ensures Valid()
      ensures pelletGrid == PelletsOf(LEVEL_MAP) && collectedCount == 0
      ensures PelletsRemaining() == totalPellets
    {
      pelletGrid := PelletsOf(LEVEL_MAP);
      totalPellets := Count(PelletsOf(LEVEL_MAP), 1);
      collectedCount := 0;
    }

    /**
     * `collect_pellet`: at half-pixel position (x, y), take the pellet of that
     * cell if there is one.
     */
    method CollectPellet(x: int, y: int) returns (points: int)
      requires Valid()
      modifies this
      ensures Valid()
      ensures points == 0 || points == POINTS_PER_PELLET
      ensures var gx, gy := CellOf(x), CellOf(y);
        if InBounds(old(pelletGrid), gx, gy) && old(pelletGrid)[gy][gx] == 1 then
          && points == POINTS_PER_PELLET
          && pelletGrid == old(pelletGrid)[gy := old(pelletGrid)[gy][gx := 0]]
          && collectedCount == old(collectedCount) + 1
          && PelletsRemaining() == old(PelletsRemaining()) - 1
        else
          points == 0 && pelletGrid == old(pelletGrid) && collectedCount == old(collectedCount)
      ensures totalPellets == old(totalPellets)
    {
      var gx := CellOf(x);
      var gy := CellOf(y);
      if 0 <= gy < |pelletGrid| && 0 <= gx < |pelletGrid[0]| {
        if pelletGrid[gy][gx] == 1 {
          CountClear(pelletGrid, gy, gx, 1, 0);
          pelletGrid := pelletGrid[gy := pelletGrid[gy][gx := 0]];
          collectedCount := collectedCount + 1;
          return POINTS_PER_PELLET;
        }
      }
      return 0;
    }

    /** `pellets_remaining`: the pellets still on the grid, never negative. */
    function PelletsRemaining(): (r: int)
      reads this
      requires Valid()
      ensures r == Count(pelletGrid, 1)
      ensures 0 <= r <= totalPellets
    {
      totalPellets - collectedCount
    }

    /** `reset`: every pellet is back and the collection count is zero. */
    method Reset()
      requires Valid()
      modifies this
      ensures Valid()
      ensures pelletGrid == PelletsOf(LEVEL_MAP) && collectedCount == 0
      ensures totalPellets == old(totalPellets)
      ensures PelletsRemaining() == totalPellets
    {
      pelletGrid := PelletsOf(LEVEL_MAP);
      collectedCount := 0;
    }
  }

  /**
   * A caller's view of the pellet store: the pellet of tile (1, 1), at pixel
   * (45, 45), is worth POINTS_PER_PELLET once and nothing the second time,
   * positions far outside the grid are worth nothing, and `Reset` restores the total.
   */
  method CollectTwiceThenReset() returns (first: int, second: int, outside: int, restored: bool)
    ensures first == POINTS_PER_PELLET && second == 0 && outside == 0 && restored
  {
    MapShape();
    var pm := new PelletManager();
    assert LEVEL_MAP[1] == MAP_ROWS[1];
    var before := pm.PelletsRemaining();
    assert CellOf(90) == 1 && pm.pelletGrid[1][1] == 1;
    first := pm.CollectPellet(90, 90);
    second := pm.CollectPellet(90, 90);
    assert CellOf(-200) == -3 && CellOf(20000) == 333;
    outside := pm.CollectPellet(-200, 20000);
    pm.Reset();
    restored := pm.PelletsRemaining() == before;
  }
}
