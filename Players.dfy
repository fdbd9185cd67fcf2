/**
 * pacman_game/player.py: the player's circle, the direction queued from the
 * keyboard, and the turn-then-advance rule of one tick.
 */
module Players {
  import opened Config
  import opened Geometry
  import opened Levels
  import opened Entities

  /** Where a circle is and where it heads. */
  datatype Motion = Motion(pos: Vec, direction: Vec)

  /**
   * One tick of `Player.update` on a grid: take the queued direction if it is
   * non-zero and its next position is open, then advance along the direction
   * held if that position is open, else stay.
   */
  function PlayerStep(g: Grid, m: Motion, next: Vec, speed: int, radius: int): (r: Motion)
    ensures r.direction == next || r.direction == m.direction
    ensures r.pos == m.pos || CanMoveTo(g, r.pos.x, r.pos.y, radius)
    ensures var ahead := Ahead(m.pos, r.direction, speed);
      CanMoveTo(g, ahead.x, ahead.y, radius) ==> r.pos == ahead
  {
    var turn := Ahead(m.pos, next, speed);
    var d := if next != ZERO && CanMoveTo(g, turn.x, turn.y, radius) then next else m.direction;
    var p := Ahead(m.pos, d, speed);
    if CanMoveTo(g, p.x, p.y, radius) then Motion(p, d) else Motion(m.pos, d)
  }

  /**
   * A tick turns exactly when the queued direction is non-zero and open, and
   * then moves one step in the resulting direction exactly when `CanMoveTo`
   * holds there; otherwise the player stays where it was.
   */
  lemma PlayerStepRules(g: Grid, m: Motion, next: Vec, speed: int, radius: int)
    ensures var r := PlayerStep(g, m, next, speed, radius);
      var turn := Ahead(m.pos, next, speed);
      && (r.direction == next || r.direction == m.direction)
      && (next != ZERO && CanMoveTo(g, turn.x, turn.y, radius) ==> r.direction == next)
      && (r.direction != m.direction ==> next != ZERO && CanMoveTo(g, turn.x, turn.y, radius))
      && (r.pos == m.pos || CanMoveTo(g, r.pos.x, r.pos.y, radius))
      && (r.pos != m.pos ==> r.pos == Ahead(m.pos, r.direction, speed))
      && (var ahead := Ahead(m.pos, r.direction, speed); CanMoveTo(g, ahead.x, ahead.y, radius) ==> r.pos == ahead)
  {
  }

  /**
   * With axis-aligned directions a tick moves the player by exactly `speed`
   * along one axis or not at all, and the direction it keeps is axis-aligned.
   */
  lemma PlayerStepAxisAligned(g: Grid, m: Motion, next: Vec, speed: int, radius: int)
    requires IsStep(m.direction) && IsStep(next) && 0 <= speed
    ensures var r := PlayerStep(g, m, next, speed, radius);
      && IsStep(r.direction)
      && (r.pos == m.pos || (Manhattan(r.pos, m.pos) == speed && (r.pos.x == m.pos.x || r.pos.y == m.pos.y)))
  {
    var r := PlayerStep(g, m, next, speed, radius);
    PlayerStepRules(g, m, next, speed, radius);
    AheadAlongAxis(m.pos, r.direction, speed);
  }

  class Player {
    const body: Entity
    var nextDirection: Vec

    /**
     * `Player.__init__` at pixel corner (x, y): centred half a tile in, with
     * the player's speed and radius, standing still with nothing queued.
     */
    constructor (x: int, y: int)
      ensures fresh(body)
      ensures body.x == 2 * x + TILE_CENTRE_HP && body.y == 2 * y + TILE_CENTRE_HP
      ensures body.speed == PLAYER_SPEED_HP && body.radius == PLAYER_RADIUS_HP
      ensures body.direction == ZERO && nextDirection == ZERO
    {
      body := new Entity(2 * x + TILE_CENTRE_HP, 2 * y + TILE_CENTRE_HP, PLAYER_SPEED_HP, PLAYER_RADIUS_HP);
      nextDirection := ZERO;
    }

    /** `set_next_direction`: queue the direction as given, without any check. */
    method SetNextDirection(direction: Vec)
      modifies this
      ensures nextDirection == direction
    {
      nextDirection := direction;
    }

    /** `update`: one tick of `PlayerStep`; the queued direction, the speed and the radius stay. */
    method Update(g: Grid)
      modifies body
      ensures Motion(body.Position(), body.direction) ==
              PlayerStep(g, old(Motion(body.Position(), body.direction)), nextDirection, body.speed, body.radius)
      ensures body.speed == old(body.speed) && body.radius == old(body.radius)
      ensures body.Position() == old(body.Position()) || CanMoveTo(g, body.x, body.y, body.radius)
      ensures var ahead := Ahead(old(body.Position()), body.direction, body.speed);
        CanMoveTo(g, ahead.x, ahead.y, body.radius) ==> body.Position() == ahead
    {
      var pos := Vec(body.x, body.y);
      if nextDirection != Vec(0, 0) {
        var turn := Ahead(pos, nextDirection, body.speed);
        if CanMoveTo(g, turn.x, turn.y, body.radius) {
          body.direction := nextDirection;
        }
      }
      var ahead := Ahead(pos, body.direction, body.speed);
      if CanMoveTo(g, ahead.x, ahead.y, body.radius) {
        body.x := ahead.x;
        body.y := ahead.y;
      }
    }
  }

  /** The squares the corridor example passes through lie in the open cell (1, 1) of a new level. */
  lemma CorridorSquaresOpen()
    ensures CanMoveTo(NewLevel(), 94, 90, PLAYER_RADIUS_HP)
    ensures CanMoveTo(NewLevel(), 94, 86, PLAYER_RADIUS_HP)
  {
    var g := NewLevel();
    assert g[1][1] == 0 by {
      assert LEVEL_MAP[1] == MAP_ROWS[1];
    }
    assert CellOf(94 - 22) == 1 && CellOf(94 + 22) == 1;
    assert CellOf(90 - 22) == 1 && CellOf(90 + 22) == 1;
    assert CellOf(86 - 22) == 1 && CellOf(86 + 22) == 1;
  }

  /**
   * A player placed on tile (1, 1) of a new level, at pixel (45, 45): asked to
   * go right, it turns and moves 2 pixels; asked to go up, it turns again and
   * moves 2 pixels up, since its square still fits in the open cell: the
   * player turns off the centre line of a corridor.
   */
  lemma PlayerTurnsOffCentre()
    ensures PlayerStep(NewLevel(), Motion(Vec(90, 90), ZERO), RIGHT, PLAYER_SPEED_HP, PLAYER_RADIUS_HP)
            == Motion(Vec(94, 90), RIGHT)
    ensures PlayerStep(NewLevel(), Motion(Vec(94, 90), RIGHT), UP, PLAYER_SPEED_HP, PLAYER_RADIUS_HP)
            == Motion(Vec(94, 86), UP)
  {
    CorridorSquaresOpen();
    assert Ahead(Vec(90, 90), RIGHT, PLAYER_SPEED_HP) == Vec(94, 90);
    assert Ahead(Vec(94, 90), UP, PLAYER_SPEED_HP) == Vec(94, 86);
  }
}
