/**
 * pacman_game/state_machine.py: the game's state (playing, between levels,
 * between lives, over), its lives and level counters and the 120-tick delay
 * of the two transition states.
 */
module StateMachine {
  import opened Wrappers

  /** `GameState`. MENU is declared but never entered. */
  datatype GameState = Menu | Playing | LevelComplete | LifeLost | GameOver

  /** The strings `update_transition` returns: 'reload_level' and 'respawn'. */
  datatype Action = ReloadLevel | Respawn

  const STARTING_LIVES := 3
  /** Ticks spent in LEVEL_COMPLETE or LIFE_LOST before play resumes (2 seconds at 60 FPS). */
  const TRANSITION_DELAY := 120

  /** The four fields of a `GameStateMachine`. */
  datatype Machine = Machine(state: GameState, lives: int, level: int, timer: int)

  /** `__init__` and `reset`: playing level 1 with three lives. */
  function Initial(): Machine {
    Machine(Playing, STARTING_LIVES, 1, 0)
  }

  /** The two states that wait out TRANSITION_DELAY. */
  predicate InTransition(s: GameState) {
    s == LevelComplete || s == LifeLost
  }

  /** `check_level_complete`: the new fields and whether the level was just completed. */
  function LevelCompleteStep(m: Machine, pelletsRemaining: int): (Machine, bool) {
    if m.state == Playing && pelletsRemaining == 0 then (m.(state := LevelComplete, timer := 0), true)
    else (m, false)
  }

  /** `check_life_lost`: the new fields and whether a life was just lost. */
  function LifeLostStep(m: Machine, collision: bool): (Machine, bool) {
    if m.state == Playing && collision then
      var lives := m.lives - 1;
      (Machine(if lives <= 0 then GameOver else LifeLost, lives, m.level, 0), true)
    else (m, false)
  }

  /** `update_transition`: the new fields and the action the game must take, if any. */
  function TransitionStep(m: Machine): (Machine, Option<Action>) {
    if InTransition(m.state) then
      var timer := m.timer + 1;
      if timer >= TRANSITION_DELAY then
        if m.state == LevelComplete then (Machine(Playing, m.lives, m.level + 1, timer), Some(ReloadLevel))
        else (Machine(Playing, m.lives, m.level, timer), Some(Respawn))
      else (m.(timer := timer), None)
    else (m, None)
  }

  // ---------------------------------------------------------------- one call

  /**
   * A level is complete exactly when the game is playing and no pellet is
   * left; then the state becomes LEVEL_COMPLETE with the timer at zero, and
   * otherwise nothing changes.
   */
  lemma LevelCompleteRule(m: Machine, pelletsRemaining: int)
    ensures var (m', completed) := LevelCompleteStep(m, pelletsRemaining);
      && (completed <==> m.state == Playing && pelletsRemaining == 0)
      && (completed ==> m'.state == LevelComplete && m'.timer == 0 && m'.lives == m.lives && m'.level == m.level)
      && (!completed ==> m' == m)
  {
  }

  /**
   * A life is lost exactly when the game is playing and a collision occurred:
   * one life goes, the game is over once none is left and waits in LIFE_LOST
   * otherwise, with the timer at zero; otherwise nothing changes.
   */
  lemma LifeLostRule(m: Machine, collision: bool)
    ensures var (m', lost) := LifeLostStep(m, collision);
      && (lost <==> m.state == Playing && collision)
      && (lost ==> m'.lives == m.lives - 1 && m'.level == m.level && m'.timer == 0)
      && (lost ==> (m'.state == GameOver <==> m.lives <= 1) && (m'.state == LifeLost <==> 1 < m.lives))
      && (!lost ==> m' == m)
  {
  }

  /**
   * In a transition state the timer counts the tick, and once it reaches
   * TRANSITION_DELAY play resumes: after LEVEL_COMPLETE on the next level
   * with 'reload_level', after LIFE_LOST on the same level with 'respawn'.
   * In any other state nothing happens.
   */
  lemma TransitionRule(m: Machine)
    ensures var (m', action) := TransitionStep(m);
      && (!InTransition(m.state) ==> m' == m && action == None)
      && (InTransition(m.state) ==> m'.timer == m.timer + 1 && m'.lives == m.lives)
      && (InTransition(m.state) && m.timer + 1 < TRANSITION_DELAY ==> m' == m.(timer := m.timer + 1) && action == None)
      && (m.state == LevelComplete && m.timer + 1 >= TRANSITION_DELAY ==>
            m'.state == Playing && m'.level == m.level + 1 && action == Some(ReloadLevel))
      && (m.state == LifeLost && m.timer + 1 >= TRANSITION_DELAY ==>
            m'.state == Playing && m'.level == m.level && action == Some(Respawn))
  {
  }

  /** From LEVEL_COMPLETE with any timer, even a negative one, the level reloads exactly when the timer is at least 119. */
  lemma ReloadThreshold(m: Machine)
    requires m.state == LevelComplete
    ensures TransitionStep(m).1 == Some(ReloadLevel) <==> m.timer >= TRANSITION_DELAY - 1
    ensures TransitionStep(m).1 != Some(Respawn)
  {
  }

  // ---------------------------------------------------------------- runs of calls

  /** A call of one of the three checking methods. */
  datatype Call = CheckLevelComplete(pelletsRemaining: int) | CheckLifeLost(collision: bool) | UpdateTransition

  /** The fields after one call. */
  function Apply(m: Machine, c: Call): Machine {
    match c
    case CheckLevelComplete(p) => LevelCompleteStep(m, p).0
    case CheckLifeLost(hit) => LifeLostStep(m, hit).0
    case UpdateTransition => TransitionStep(m).0
  }

  /** The fields after a sequence of calls, none of them `reset`. */
  function Run(m: Machine, calls: seq<Call>): Machine
    decreases |calls|
  {
    if calls == [] then m else Run(Apply(m, calls[0]), calls[1..])
  }

  /**
   * The machine's invariant from `__init__` on: at most three lives, game
   * over exactly when none is left, a level of at least 1, MENU never
   * entered, and a transition timer below the delay while one is pending.
   */
  predicate Valid(m: Machine) {
    && 0 <= m.lives <= STARTING_LIVES
    && (m.state == GameOver <==> m.lives == 0)
    && m.state != Menu
    && 1 <= m.level
    && 0 <= m.timer
    && (InTransition(m.state) ==> m.timer < TRANSITION_DELAY)
  }

  lemma InitialIsValid()
    ensures Valid(Initial())
    ensures Initial().state == Playing && Initial().lives == 3 && Initial().level == 1 && Initial().timer == 0
  {
  }

  /** Every call keeps the invariant, takes no life back and never lowers the level. */
  lemma ApplyKeeps(m: Machine, c: Call)
    ensures Valid(m) ==> Valid(Apply(m, c))
    ensures Apply(m, c).lives <= m.lives && m.level <= Apply(m, c).level
    ensures m.state == GameOver ==> Apply(m, c) == m
  {
  }

  /**
   * Outside `reset`, the invariant holds all along a run, lives never
   * increase, the level never decreases, and GAME_OVER is never left.
   */
  lemma {:induction false} RunKeeps(m: Machine, calls: seq<Call>)
    ensures Valid(m) ==> Valid(Run(m, calls))
    ensures Run(m, calls).lives <= m.lives && m.level <= Run(m, calls).level
    ensures m.state == GameOver ==> Run(m, calls) == m
    decreases |calls|
  {
    if calls != [] {
      ApplyKeeps(m, calls[0]);
      RunKeeps(Apply(m, calls[0]), calls[1..]);
    }
  }

  /** `update_transition` called `n` times. */
  function Ticks(m: Machine, n: nat): Machine
    decreases n
  {
    if n == 0 then m else Ticks(TransitionStep(m).0, n - 1)
  }

  /** Below the delay a transition state only counts. */
  lemma {:induction false} TicksCountUp(m: Machine, k: nat)
    requires InTransition(m.state) && m.timer + k < TRANSITION_DELAY
    ensures Ticks(m, k) == m.(timer := m.timer + k)
    decreases k
  {
    if k > 0 {
      TicksCountUp(m.(timer := m.timer + 1), k - 1);
    }
  }

  /**
   * A transition entered with the timer at zero lasts exactly TRANSITION_DELAY
   * ticks: the first 119 calls of `update_transition` return no action and
   * the 120th resumes play with the action for the state.
   */
  lemma TransitionDelay(m: Machine)
    requires InTransition(m.state) && m.timer == 0
    ensures forall k :: 0 <= k < TRANSITION_DELAY - 1 ==> TransitionStep(Ticks(m, k)).1 == None
    ensures var (m', action) := TransitionStep(Ticks(m, TRANSITION_DELAY - 1));
      && m'.state == Playing
      && action == Some(if m.state == LevelComplete then ReloadLevel else Respawn)
  {
    forall k | 0 <= k < TRANSITION_DELAY - 1
      ensures TransitionStep(Ticks(m, k)).1 == None
    {
      TicksCountUp(m, k);
    }
    TicksCountUp(m, TRANSITION_DELAY - 1);
  }

  /**
   * The objects of the game: one per `GameStateMachine`, its methods the
   * functions above applied to its fields.
   */
  class GameStateMachine {
    var currentState: GameState
    var lives: int
    var levelNumber: int
    var transitionTimer: int

    function Snapshot(): Machine
      reads this
    {
      Machine(currentState, lives, levelNumber, transitionTimer)
    }

    /** `__init__`. */
    constructor ()
      ensures Snapshot() == Initial()
    {
      currentState := Playing;
      lives := 3;
      levelNumber := 1;
      transitionTimer := 0;
    }

    function GetState(): GameState
      reads this
    {
      currentState
    }

    predicate IsPlaying()
      reads this
    {
      currentState == Playing
    }

    predicate IsGameOver()
      reads this
    {
      currentState == GameOver
    }

    method CheckLevelComplete(pelletsRemaining: int) returns (completed: bool)
      modifies this
      ensures (Snapshot(), completed) == LevelCompleteStep(old(Snapshot()), pelletsRemaining)
    {
      if currentState == Playing && pelletsRemaining == 0 {
        currentState := LevelComplete;
        transitionTimer := 0;
        return true;
      }
      return false;
    }

    method CheckLifeLost(collisionOccurred: bool) returns (lost: bool)
      modifies this
      ensures (Snapshot(), lost) == LifeLostStep(old(Snapshot()), collisionOccurred)
    {
      if currentState == Playing && collisionOccurred {
        lives := lives - 1;
        if lives <= 0 {
          currentState := GameOver;
        } else {
          currentState := LifeLost;
        }
        transitionTimer := 0;
        return true;
      }
      return false;
    }

    method UpdateTransition() returns (action: Option<Action>)
      modifies this
      ensures (Snapshot(), action) == TransitionStep(old(Snapshot()))
    {
      if currentState in [LevelComplete, LifeLost] {
        transitionTimer := transitionTimer + 1;
        if transitionTimer >= 120 {
          if currentState == LevelComplete {
            levelNumber := levelNumber + 1;
            currentState := Playing;
            return Some(ReloadLevel);
          } else if currentState == LifeLost {
            currentState := Playing;
            return Some(Respawn);
          }
        }
      }
      return None;
    }

    /** `reset`, from any state whatever its fields. */
    method Reset()
      modifies this
      ensures Snapshot() == Initial()
    {
      currentState := Playing;
      lives := 3;
      levelNumber := 1;
      transitionTimer := 0;
    }
  }

  /** The last of `n + 1` ticks. */
  lemma {:induction false} TicksLast(m: Machine, n: nat)
    ensures Ticks(m, n + 1) == TransitionStep(Ticks(m, n)).0
    decreases n
  {
    if n > 0 {
      TicksLast(TransitionStep(m).0, n - 1);
    }
  }

  /** A life lost with lives to spare is followed, TRANSITION_DELAY ticks later, by play with one life fewer. */
  lemma LoseLifeAndRespawn(m: Machine)
    requires m.state == Playing && 1 < m.lives
    ensures Ticks(LifeLostStep(m, true).0, TRANSITION_DELAY) == m.(lives := m.lives - 1, timer := TRANSITION_DELAY)
  {
    var lost := LifeLostStep(m, true).0;
    TicksCountUp(lost, TRANSITION_DELAY - 1);
    TicksLast(lost, TRANSITION_DELAY - 1);
  }

  /**
   * Three lives: from the start, a collision, the delay, a second collision,
   * the delay, and a third collision end the game with no life left.
   */
  lemma ThirdCollisionEndsGame()
    ensures var p1 := Ticks(LifeLostStep(Initial(), true).0, TRANSITION_DELAY);
            var p2 := Ticks(LifeLostStep(p1, true).0, TRANSITION_DELAY);
            var m3 := LifeLostStep(p2, true).0;
            p1.state == Playing && p1.lives == 2 && p2.state == Playing && p2.lives == 1
            && m3.state == GameOver && m3.lives == 0
  {
    LoseLifeAndRespawn(Initial());
    var p1 := Ticks(LifeLostStep(Initial(), true).0, TRANSITION_DELAY);
    LoseLifeAndRespawn(p1);
  }
}
