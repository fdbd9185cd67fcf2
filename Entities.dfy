/**
 * pacman_game/entities/base.py: a moving circle with a position, a speed, a
 * radius and a direction, and the circle-overlap collision test.
 *
 * Positions, speeds and radii are in half-pixels (see module Config).
 */
module Entities {
  import opened Geometry

  class Entity {
    var x: int
    var y: int
    var speed: int
    var radius: int
    var direction: Vec

    /** `Entity.__init__`: the given position, speed and radius, standing still. */
    constructor (x: int, y: int, speed: int, radius: int)
      ensures this.x == x && this.y == y && this.speed == speed && this.radius == radius
      ensures direction == ZERO
    {
      this.x, this.y := x, y;
      this.speed, this.radius := speed, radius;
      direction := ZERO;
    }

    /** The centre (x, y). */
    function Position(): Vec
      reads this
    {
      Vec(x, y)
    }

    /** `collides_with`: the two circles overlap. */
    predicate CollidesWith(other: Entity): (hit: bool)
      reads this, other
      ensures hit ==> 0 < radius + other.radius
      ensures hit <==> Overlap(other.x - x, other.y - y, other.radius + radius)
    {
      Overlap(x - other.x, y - other.y, radius + other.radius)
    }
  }

  /**
   * Circles whose centres are (dx, dy) apart and whose radii add up to `sum`
   * overlap: the distance `sqrt(dx² + dy²)` is below `sum`, compared here
   * without the square root.
   */
  predicate Overlap(dx: int, dy: int, sum: int) {
    0 <= sum && dx * dx + dy * dy < sum * sum
  }

  /** Squaring keeps the order of non-negative reals. */
  lemma SquareMonotone(a: real, b: real)
    requires 0.0 <= a && 0.0 <= b
    ensures a < b <==> a * a < b * b
  {
    var aa, ab, bb := a * a, a * b, b * b;
    if a < b {
      assert aa <= ab < bb;
    } else {
      assert bb <= ab <= aa;
    }
  }

  /**
   * The squared comparison decides the source's test: for the distance `d`,
   * the non-negative root of dx² + dy², the circles overlap exactly when
   * `d < sum`, for every radius sum.
   */
  lemma OverlapIsDistanceBelowSum(dx: int, dy: int, sum: int, d: real)
    requires 0.0 <= d && d * d == (dx * dx + dy * dy) as real
    ensures Overlap(dx, dy, sum) <==> d < sum as real
  {
    if 0 <= sum {
      SquareMonotone(d, sum as real);
      assert (sum * sum) as real == (sum as real) * (sum as real);
    }
  }

  /** Collision does not depend on which entity asks. */
  lemma CollisionSymmetric(a: Entity, b: Entity)
    ensures a.CollidesWith(b) <==> b.CollidesWith(a)
  {
    assert (a.x - b.x) * (a.x - b.x) == (b.x - a.x) * (b.x - a.x);
    assert (a.y - b.y) * (a.y - b.y) == (b.y - a.y) * (b.y - a.y);
  }

  /** Two entities on the same point, an entity and itself included, collide when their radii add up to more than zero. */
  lemma SamePointCollides(a: Entity, b: Entity)
    requires a.x == b.x && a.y == b.y && 0 < a.radius + b.radius
    ensures a.CollidesWith(b)
  {
  }

  /**
   * Two radii of 11 pixels (22 half-pixels): centres 21 pixels apart collide;
   * 25, 38 and 40 pixels apart, on either side, do not.
   */
  lemma CollisionExamples()
    ensures Overlap(42, 0, 44)
    ensures !Overlap(50, 0, 44)
    ensures !Overlap(-76, 0, 44)
    ensures !Overlap(80, 0, 44)
  {
  }
}
