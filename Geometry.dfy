/** Integer vectors for cells, directions and half-pixel positions, and the pixel-to-cell mapping. */
module Geometry {
  import opened Config

  /** A grid cell (column, row), a direction (dx, dy) or a position in half-pixels. */
  datatype Vec = Vec(x: int, y: int) {
    function Add(o: Vec): Vec { Vec(x + o.x, y + o.y) }
    function Sub(o: Vec): Vec { Vec(x - o.x, y - o.y) }
  }

  const ZERO := Vec(0, 0)
  const LEFT := Vec(-1, 0)
  const RIGHT := Vec(1, 0)
  const UP := Vec(0, -1)
  const DOWN := Vec(0, 1)

  function Abs(n: int): nat { if n < 0 then -n else n }

  /** |dx| + |dy|. */
  function Manhattan(a: Vec, b: Vec): nat {
    Abs(a.x - b.x) + Abs(a.y - b.y)
  }

  /** One of LEFT, RIGHT, UP, DOWN. */
  predicate IsUnit(d: Vec) {
    Abs(d.x) + Abs(d.y) == 1
  }

  /** The zero vector or an axis-aligned unit vector: never a diagonal. */
  predicate IsStep(d: Vec) {
    d == ZERO || IsUnit(d)
  }

  /** `d` scaled by `k`, component-wise (a direction times a speed). */
  function Times(d: Vec, k: int): Vec {
    Vec(d.x * k, d.y * k)
  }

  /** The position one tick of moving by `d` at `speed` leads to. */
  function Ahead(pos: Vec, d: Vec, speed: int): Vec {
    pos.Add(Times(d, speed))
  }

  /**
   * The cell index of a half-pixel coordinate: Python's `int(px / TILE_SIZE)`,
   * which truncates toward zero, so every coordinate in (-1, 1) tiles maps to cell 0.
   */
  function CellOf(h: int): (c: int)
    ensures 0 <= h ==> TILE_HP * c <= h < TILE_HP * c + TILE_HP
    ensures h < 0 ==> TILE_HP * c - TILE_HP < h <= TILE_HP * c
  {
    if h >= 0 then h / TILE_HP else -((-h) / TILE_HP)
  }

  /** The cell of a half-pixel position. */
  function CellAt(p: Vec): Vec {
    Vec(CellOf(p.x), CellOf(p.y))
  }

  /**
   * Moving along a non-diagonal direction at a non-negative speed either
   * stays put (the zero vector) or covers exactly `speed` along one axis.
   */
  lemma AheadAlongAxis(pos: Vec, d: Vec, speed: int)
    requires IsStep(d) && 0 <= speed
    ensures var p := Ahead(pos, d, speed);
      && (d == ZERO ==> p == pos)
      && (IsUnit(d) ==> Manhattan(p, pos) == speed && (p.x == pos.x || p.y == pos.y))
  {
    if IsUnit(d) {
      assert d == LEFT || d == RIGHT || d == UP || d == DOWN;
    }
  }

  /** A larger coordinate never lies in a smaller cell. */
  lemma CellOfMonotone(a: int, b: int)
    requires a <= b
    ensures CellOf(a) <= CellOf(b)
  {
  }

  /** Two coordinates less than a tile apart lie in the same cell or in adjacent cells. */
  lemma CellOfSpread(a: int, b: int)
    requires a <= b < a + TILE_HP
    ensures CellOf(b) - CellOf(a) <= 1
  {
  }

  /** Truncation, not flooring: 5 pixels left of the origin is still cell 0, and only -30 pixels reaches cell -1. */
  lemma TruncatesTowardZero()
    ensures CellOf(-10) == 0 && CellOf(-59) == 0 && CellOf(-60) == -1
    ensures CellOf(90) == 1
  {
  }

  /** The triangle inequality of the Manhattan distance. */
  lemma ManhattanTriangle(a: Vec, b: Vec, c: Vec)
    ensures Manhattan(a, c) <= Manhattan(a, b) + Manhattan(b, c)
  {
  }

  lemma ManhattanSymmetric(a: Vec, b: Vec)
    ensures Manhattan(a, b) == Manhattan(b, a)
  {
  }
}
