/**
 * pacman_game/ghosts.py: a ghost's mode timer (scatter and chase in turn),
 * its re-planning counter, the target it picks and the step it takes.
 *
 * Positions and speeds are in half-pixels (see module Config).
 */
module Ghosts {
  import opened Config
  import opened Geometry
  import opened Wrappers
  import opened Levels
  import opened Entities
  import opened Players
  import opened GhostBehaviors
  import opened Pathfinding

  // ---------------------------------------------------------------- the mode timer

  /** A ghost's mode and the ticks it has spent in it. */
  datatype Phase = Phase(mode: Mode, timer: int)

  /**
   * The timer part of one `Ghost.update`: an idle ghost is left alone;
   * otherwise the timer counts the tick, and scatter gives way to chase, and
   * chase to scatter, once the timer reaches the mode's duration. A
   * frightened ghost only counts.
   */
  function NextPhase(ph: Phase): (r: Phase)
    ensures r.mode == Idle <==> ph.mode == Idle
    ensures ph.mode == Frightened ==> r.mode == Frightened
    ensures ph.mode != Idle ==> r.timer == 0 || r.timer == ph.timer + 1
  {
    match ph.mode
    case Idle => ph
    case Scatter => if ph.timer + 1 >= SCATTER_DURATION then Phase(Chase, 0) else Phase(Scatter, ph.timer + 1)
    case Chase => if ph.timer + 1 >= CHASE_DURATION then Phase(Scatter, 0) else Phase(Chase, ph.timer + 1)
    case Frightened => Phase(Frightened, ph.timer + 1)
  }

  /** The phase after `n` updates. */
  function Phases(ph: Phase, n: nat): Phase
    decreases n
  {
    if n == 0 then ph else Phases(NextPhase(ph), n - 1)
  }

  /** A timer that has not yet run past its mode's duration. */
  predicate PhaseValid(ph: Phase) {
    && 0 <= ph.timer
    && (ph.mode == Scatter ==> ph.timer < SCATTER_DURATION)
    && (ph.mode == Chase ==> ph.timer < CHASE_DURATION)
  }

  /**
   * An update keeps the timer within its mode's duration, never enters or
   * leaves Idle, and never leaves Frightened.
   */
  lemma NextPhaseValid(ph: Phase)
    requires PhaseValid(ph)
    ensures PhaseValid(NextPhase(ph))
    ensures NextPhase(ph).mode == Idle <==> ph.mode == Idle
    ensures ph.mode == Frightened ==> NextPhase(ph) == Phase(Frightened, ph.timer + 1)
    ensures ph.mode in {Scatter, Chase} ==> NextPhase(ph).mode in {Scatter, Chase}
  {
  }

  lemma {:induction false} PhasesAdd(ph: Phase, a: nat, b: nat)
    ensures Phases(ph, a + b) == Phases(Phases(ph, a), b)
    decreases a
  {
    if a > 0 {
      PhasesAdd(NextPhase(ph), a - 1, b);
    }
  }

  /** Below the scatter duration the timer just counts. */
  lemma {:induction false} ScatterCountsUp(t: int, k: nat)
    requires 0 <= t && t + k < SCATTER_DURATION
    ensures Phases(Phase(Scatter, t), k) == Phase(Scatter, t + k)
    decreases k
  {
    if k > 0 {
      ScatterCountsUp(t + 1, k - 1);
    }
  }

  /** Below the chase duration the timer just counts. */
  lemma {:induction false} ChaseCountsUp(t: int, k: nat)
    requires 0 <= t && t + k < CHASE_DURATION
    ensures Phases(Phase(Chase, t), k) == Phase(Chase, t + k)
    decreases k
  {
    if k > 0 {
      ChaseCountsUp(t + 1, k - 1);
    }
  }

  /** A frightened ghost stays frightened however long it runs. */
  lemma {:induction false} FrightenedLasts(t: int, k: nat)
    ensures Phases(Phase(Frightened, t), k) == Phase(Frightened, t + k)
    decreases k
  {
    if k > 0 {
      FrightenedLasts(t + 1, k - 1);
    }
  }

  /** An idle ghost stays idle with its timer untouched. */
  lemma {:induction false} IdleLasts(ph: Phase, k: nat)
    requires ph.mode == Idle
    ensures Phases(ph, k) == ph
    decreases k
  {
    if k > 0 {
      IdleLasts(ph, k - 1);
    }
  }

  /** A fresh scatter phase turns into a fresh chase phase after exactly SCATTER_DURATION updates. */
  lemma ScatterEnds(ph: Phase)
    requires ph == Phase(Scatter, 0)
    ensures Phases(ph, SCATTER_DURATION) == Phase(Chase, 0)
  {
    ScatterCountsUp(0, SCATTER_DURATION - 1);
    PhasesAdd(ph, SCATTER_DURATION - 1, 1);
  }

  /** A fresh chase phase turns into a fresh scatter phase after exactly CHASE_DURATION updates. */
  lemma ChaseEnds(ph: Phase)
    requires ph == Phase(Chase, 0)
    ensures Phases(ph, CHASE_DURATION) == Phase(Scatter, 0)
  {
    ChaseCountsUp(0, CHASE_DURATION - 1);
    PhasesAdd(ph, CHASE_DURATION - 1, 1);
  }

  /** One full period of scatter then chase brings the phase back to the start of scatter. */
  lemma FullPeriod()
    ensures Phases(Phase(Scatter, 0), SCATTER_DURATION + CHASE_DURATION) == Phase(Scatter, 0)
  {
    PhasesAdd(Phase(Scatter, 0), SCATTER_DURATION, CHASE_DURATION);
    ScatterEnds(Phase(Scatter, 0));
    ChaseEnds(Phase(Chase, 0));
  }

  /** Removing one period does not change the remainder. */
  lemma ShiftByPeriod(n: int)
    requires SCATTER_DURATION + CHASE_DURATION <= n
    ensures var period := SCATTER_DURATION + CHASE_DURATION;
      (n - period) % period == n % period
  {
  }

  /**
   * The whole schedule of a ghost that starts in scatter with its timer at
   * zero, as `Ghost.__init__` leaves it: the modes repeat with period
   * SCATTER_DURATION + CHASE_DURATION (27 seconds), scatter for the first
   * SCATTER_DURATION updates of each period and chase for the rest.
   */
  lemma {:induction false} Schedule(ph: Phase, n: nat)
    requires ph == Phase(Scatter, 0)
    ensures var r := n % (SCATTER_DURATION + CHASE_DURATION);
      Phases(ph, n) == if r < SCATTER_DURATION then Phase(Scatter, r) else Phase(Chase, r - SCATTER_DURATION)
    decreases n
  {
    var period := SCATTER_DURATION + CHASE_DURATION;
    if n >= period {
      FullPeriod();
      PhasesAdd(ph, period, n - period);
      Schedule(ph, n - period);
      ShiftByPeriod(n);
    } else if n < SCATTER_DURATION {
      ScatterCountsUp(0, n);
    } else {
      ScatterEnds(ph);
      PhasesAdd(ph, SCATTER_DURATION, n - SCATTER_DURATION);
      ChaseCountsUp(0, n - SCATTER_DURATION);
    }
  }

  /**
   * A timer at or past its mode's duration switches on the next update, even
   * one set beyond the duration from outside.
   */
  lemma ModeSwitchAtDuration(t: int)
    ensures t >= SCATTER_DURATION - 1 ==> NextPhase(Phase(Scatter, t)) == Phase(Chase, 0)
    ensures t >= CHASE_DURATION - 1 ==> NextPhase(Phase(Chase, t)) == Phase(Scatter, 0)
    ensures t < SCATTER_DURATION - 1 ==> NextPhase(Phase(Scatter, t)) == Phase(Scatter, t + 1)
    ensures t < CHASE_DURATION - 1 ==> NextPhase(Phase(Chase, t)) == Phase(Chase, t + 1)
  {
  }

  // ---------------------------------------------------------------- the re-planning counter

  /** The counter part of `Ghost.update`: count the tick, wrapping to 0 at the interval. */
  function NextCounter(c: int): int {
    if c + 1 >= PATHFINDING_UPDATE_INTERVAL then 0 else c + 1
  }

  /** An update with counter `c` re-plans the ghost's route before moving. */
  predicate Replans(c: int) {
    c + 1 >= PATHFINDING_UPDATE_INTERVAL
  }

  /** The counter after `n` updates. */
  function Counters(c: int, n: nat): int
    decreases n
  {
    if n == 0 then c else Counters(NextCounter(c), n - 1)
  }

  /** From a counter in range, `n` updates advance it by `n` modulo the interval. */
  lemma {:induction false} CountersWrap(c: int, n: nat)
    requires 0 <= c < PATHFINDING_UPDATE_INTERVAL
    ensures Counters(c, n) == (c + n) % PATHFINDING_UPDATE_INTERVAL
    decreases n
  {
    if n > 0 {
      CountersWrap(NextCounter(c), n - 1);
      if c + 1 == PATHFINDING_UPDATE_INTERVAL {
        assert (n - 1) % PATHFINDING_UPDATE_INTERVAL == (c + n) % PATHFINDING_UPDATE_INTERVAL;
      }
    }
  }

  /**
   * A ghost whose counter starts at 0 re-plans on every tenth update and on
   * no other: on update n + 1 exactly when n + 1 is a multiple of the interval.
   */
  lemma ReplansEveryInterval(n: nat)
    ensures Replans(Counters(0, n)) <==> (n + 1) % PATHFINDING_UPDATE_INTERVAL == 0
  {
    CountersWrap(0, n);
  }

  // ---------------------------------------------------------------- the entity

  /** Blinky's position, when a Blinky is given. */
  function BlinkyAt(blinky: Ghost?): Option<Vec>
    reads if blinky == null then {} else {blinky.body}
  {
    if blinky == null then None else Some(blinky.body.Position())
  }

  /**
   * The target `update_target` picks, from positions in half-pixels: the
   * cells of the ghost and of the player, the player's direction, and
   * Blinky's cell, passed on only when this ghost is Inky.
   */
  function TargetFor(t: GhostType, mode: Mode, ghostPos: Vec, playerPos: Vec, playerDir: Vec,
                     blinkyPos: Option<Vec>): (r: Vec)
    ensures mode == Frightened ==> r == CellAt(ghostPos)
    ensures mode == Scatter ==> r == ScatterTarget(t)
    ensures t != Inky ==> r == GetTargetTile(t, mode, CellAt(ghostPos), CellAt(playerPos), playerDir, None)
  {
    var blinkyCell := if t == Inky && blinkyPos.Some? then Some(CellAt(blinkyPos.value)) else None;
    GetTargetTile(t, mode, CellAt(ghostPos), CellAt(playerPos), playerDir, blinkyCell)
  }

  /**
   * The direction `d` a re-plan from cell `current` toward `target` leaves,
   * given the direction `d0` held before: `d0` when there is no move (see
   * `Stays`), otherwise the first step of a shortest walk.
   */
  ghost predicate Replanned(g: Grid, current: Vec, target: Vec, d0: Vec, d: Vec) {
    && (Stays(g, current, target) ==> d == d0)
    && (!Stays(g, current, target) ==> FirstStep(g, current, target, d))
  }

  class Ghost {
    const body: Entity
    const ghostType: GhostType
    var behavior: Mode
    var behaviorTimer: int
    var targetTile: Option<Vec>
    var pathCounter: int

    /**
     * The direction is never diagonal, the mode timer is within its mode's
     * duration, and the re-planning counter is below the interval.
     */
    ghost predicate Valid()
      reads this, body
    {
      && IsStep(body.direction)
      && PhaseValid(CurrentPhase())
      && 0 <= pathCounter < PATHFINDING_UPDATE_INTERVAL
    }

    /**
     * `Ghost.__init__` at pixel corner (x, y): centred half a tile in, with
     * the given speed (in half-pixels) or GHOST_SPEED, in scatter mode with
     * both counters at zero and no target yet.
     */
    constructor (x: int, y: int, ghostType: GhostType, speed: Option<int>)
      ensures fresh(body)
      ensures body.x == 2 * x + TILE_CENTRE_HP && body.y == 2 * y + TILE_CENTRE_HP
      ensures body.speed == speed.GetOr(GHOST_SPEED_HP) && body.radius == GHOST_RADIUS_HP
      ensures body.direction == ZERO
      ensures this.ghostType == ghostType
      ensures behavior == Scatter && behaviorTimer == 0 && targetTile == None && pathCounter == 0
      ensures Valid()
    {
      body := new Entity(2 * x + TILE_CENTRE_HP, 2 * y + TILE_CENTRE_HP, speed.GetOr(GHOST_SPEED_HP), GHOST_RADIUS_HP);
      this.ghostType := ghostType;
      behavior := Scatter;
      behaviorTimer := 0;
      targetTile := None;
      pathCounter := 0;
    }

    function CurrentPhase(): Phase
      reads this
    {
      Phase(behavior, behaviorTimer)
    }

    /**
     * `update_target`: pick the target for the current mode and turn onto the
     * first step of a shortest route to it; when there is no route, or the
     * ghost is already there, keep the direction. Nothing else changes.
     */
    method UpdateTarget(g: Grid, player: Player, blinky: Ghost?)
      modifies this, body
      ensures behavior == old(behavior) && behaviorTimer == old(behaviorTimer) && pathCounter == old(pathCounter)
      ensures body.Position() == old(body.Position())
      ensures body.speed == old(body.speed) && body.radius == old(body.radius)
      ensures targetTile == Some(old(TargetFor(ghostType, behavior, body.Position(), player.body.Position(),
                                                player.body.direction, BlinkyAt(blinky))))
      ensures Replanned(g, CellAt(body.Position()), targetTile.value, old(body.direction), body.direction)
      ensures old(IsStep(body.direction)) ==> IsStep(body.direction)
    {
      var ghostCell := CellAt(Vec(body.x, body.y));
      var playerCell := CellAt(Vec(player.body.x, player.body.y));
      var playerDirection := player.body.direction;
      var blinkyCell: Option<Vec> := None;
      if blinky != null && ghostType == Inky {
        blinkyCell := Some(CellAt(Vec(blinky.body.x, blinky.body.y)));
      }
      var target := GetTargetTile(ghostType, behavior, ghostCell, playerCell, playerDirection, blinkyCell);
      targetTile := Some(target);
      var next := GetNextDirection(g, ghostCell, target);
      if next != ZERO {
        body.direction := next;
      }
    }

    /** The mode-timer lines of `update` for a ghost that is not idle: one tick of `NextPhase`. */
    method AdvanceMode()
      requires behavior != Idle
      modifies this
      ensures CurrentPhase() == NextPhase(old(CurrentPhase()))
      ensures targetTile == old(targetTile) && pathCounter == old(pathCounter)
    {
      behaviorTimer := behaviorTimer + 1;
      if behavior == Scatter {
        if behaviorTimer >= SCATTER_DURATION {
          behavior := Chase;
          behaviorTimer := 0;
        }
      } else if behavior == Chase {
        if behaviorTimer >= CHASE_DURATION {
          behavior := Scatter;
          behaviorTimer := 0;
        }
      }
    }

    /**
     * The re-planning lines of `update`: count the tick, and when the counter
     * reaches the interval, wrap it to 0 and re-plan.
     */
    method CountTick(g: Grid, player: Player, blinky: Ghost?)
      modifies this, body
      ensures behavior == old(behavior) && behaviorTimer == old(behaviorTimer)
      ensures pathCounter == NextCounter(old(pathCounter))
      ensures body.Position() == old(body.Position())
      ensures body.speed == old(body.speed) && body.radius == old(body.radius)
      ensures old(IsStep(body.direction)) ==> IsStep(body.direction)
      ensures Replans(old(pathCounter)) ==>
                && targetTile == Some(old(TargetFor(ghostType, behavior, body.Position(), player.body.Position(),
                                                    player.body.direction, BlinkyAt(blinky))))
                && Replanned(g, CellAt(body.Position()), targetTile.value, old(body.direction), body.direction)
      ensures !Replans(old(pathCounter)) ==> targetTile == old(targetTile) && body.direction == old(body.direction)
    {
      pathCounter := pathCounter + 1;
      if pathCounter >= PATHFINDING_UPDATE_INTERVAL {
        pathCounter := 0;
        UpdateTarget(g, player, blinky);
      }
    }

    /**
     * The movement lines of `update`: advance one step in the direction held
     * when the circle fits there; otherwise stay and re-plan at once.
     */
    method Step(g: Grid, player: Player, blinky: Ghost?)
      modifies this, body
      ensures behavior == old(behavior) && behaviorTimer == old(behaviorTimer) && pathCounter == old(pathCounter)
      ensures body.speed == old(body.speed) && body.radius == old(body.radius)
      ensures old(IsStep(body.direction)) ==> IsStep(body.direction)
      ensures var ahead := Ahead(old(body.Position()), old(body.direction), body.speed);
              if CanMoveTo(g, ahead.x, ahead.y, body.radius) then
                body.Position() == ahead && body.direction == old(body.direction) && targetTile == old(targetTile)
              else
                && body.Position() == old(body.Position())
                && targetTile == Some(old(TargetFor(ghostType, behavior, body.Position(), player.body.Position(),
                                                    player.body.direction, BlinkyAt(blinky))))
                && Replanned(g, CellAt(body.Position()), targetTile.value, old(body.direction), body.direction)
    {
      var newX := body.x + body.direction.x * body.speed;
      var newY := body.y + body.direction.y * body.speed;
      if CanMoveTo(g, newX, newY, body.radius) {
        body.x := newX;
        body.y := newY;
      } else {
        UpdateTarget(g, player, blinky);
      }
    }

    /**
     * `update`, with IDLE as a mode in which a ghost does nothing: count the
     * tick on the mode timer, count it on the re-planning counter and re-plan
     * when that wraps, then take one step in the direction held, or re-plan
     * in place when the step is blocked. `heading` is the direction the step
     * is tried in: the re-planned one on a tick that re-plans, else the old one.
     */
    method Update(g: Grid, player: Player, blinky: Ghost?) returns (ghost heading: Vec)
      requires IsStep(body.direction)
      requires player.body != body
      modifies this, body
      ensures old(Valid()) ==> Valid()
      ensures IsStep(body.direction)
      ensures old(behavior) == Idle ==> unchanged(this, body)
      ensures CurrentPhase() == NextPhase(old(CurrentPhase()))
      ensures old(behavior) != Idle ==> pathCounter == NextCounter(old(pathCounter))
      ensures body.speed == old(body.speed) && body.radius == old(body.radius)
      ensures body.Position() == old(body.Position()) ||
              (body.Position() == Ahead(old(body.Position()), body.direction, body.speed)
               && CanMoveTo(g, body.x, body.y, body.radius))
      // a tick that re-plans: the target of the new mode, and the direction that re-plan gives
      ensures old(behavior) != Idle && Replans(old(pathCounter)) ==>
                && targetTile == Some(TargetFor(ghostType, behavior, old(body.Position()), old(player.body.Position()),
                                                old(player.body.direction), old(BlinkyAt(blinky))))
                && Replanned(g, CellAt(old(body.Position())), targetTile.value, old(body.direction), body.direction)
      // a tick that does not re-plan first: move on when free, else stay and re-plan
      ensures var ahead := Ahead(old(body.Position()), old(body.direction), body.speed);
              old(behavior) != Idle && !Replans(old(pathCounter)) && CanMoveTo(g, ahead.x, ahead.y, body.radius) ==>
                body.Position() == ahead && body.direction == old(body.direction) && targetTile == old(targetTile)
      ensures var ahead := Ahead(old(body.Position()), old(body.direction), body.speed);
              old(behavior) != Idle && !Replans(old(pathCounter)) && !CanMoveTo(g, ahead.x, ahead.y, body.radius) ==>
                && body.Position() == old(body.Position())
                && targetTile == Some(TargetFor(ghostType, behavior, old(body.Position()), old(player.body.Position()),
                                                old(player.body.direction), old(BlinkyAt(blinky))))
                && Replanned(g, CellAt(old(body.Position())), targetTile.value, old(body.direction), body.direction)
      // the direction the step is tried in
      ensures old(behavior) != Idle && Replans(old(pathCounter)) ==>
                Replanned(g, CellAt(old(body.Position())),
                          TargetFor(ghostType, behavior, old(body.Position()), old(player.body.Position()),
                                    old(player.body.direction), old(BlinkyAt(blinky))),
                          old(body.direction), heading)
      ensures old(behavior) != Idle && !Replans(old(pathCounter)) ==> heading == old(body.direction)
      // every tick that is not idle, re-planning or not: move on when free, else stay and re-plan
      ensures var ahead := Ahead(old(body.Position()), heading, body.speed);
              old(behavior) != Idle && CanMoveTo(g, ahead.x, ahead.y, body.radius) ==>
                body.Position() == ahead && body.direction == heading
      ensures var ahead := Ahead(old(body.Position()), heading, body.speed);
              old(behavior) != Idle && !CanMoveTo(g, ahead.x, ahead.y, body.radius) ==>
                && body.Position() == old(body.Position())
                && targetTile == Some(TargetFor(ghostType, behavior, old(body.Position()), old(player.body.Position()),
                                                old(player.body.direction), old(BlinkyAt(blinky))))
                && Replanned(g, CellAt(old(body.Position())), targetTile.value, heading, body.direction)
    {
      heading := body.direction;
      if behavior == Idle {
        return;
      }
      if PhaseValid(CurrentPhase()) {
        NextPhaseValid(CurrentPhase());
      }
      AdvanceMode();
      CountTick(g, player, blinky);
      heading := body.direction;
      Step(g, player, blinky);
    }
  }

  // ---------------------------------------------------------------- `update` as written

  /** How a call ends: it returns, or it raises the named exception. */
  datatype Outcome = Returned | Raised(error: string)

  /**
   * How `Ghost.update` as written ends for a ghost in any phase: its first
   * statement compares the mode with `GhostBehavior.IDLE`, an attribute
   * lookup on the enum that succeeds only if IDLE is one of its members.
   */
  function UpdateOutcomeAsWritten(ph: Phase): Outcome {
    match MemberNamed("IDLE")
    case None => Raised("AttributeError")
    case Some(_) => Returned
  }

  /** As written, every call of `Ghost.update` raises AttributeError, whatever the ghost's phase. */
  lemma EveryUpdateRaises(ph: Phase)
    ensures UpdateOutcomeAsWritten(ph) == Raised("AttributeError")
  {
    IdleIsNotAMember();
  }
}
