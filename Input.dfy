/**
 * pacman_game/input_handler.py: a batch of window events folded into three
 * request flags, and the arrow keys held down mapped to one direction.
 *
 * The event queue and the keyboard state are parameters: an event batch is
 * a sequence of events, the keys held are four booleans.
 */
module Input {
  import opened Geometry

  /** The keys the handler tells apart; every other key carries its code. */
  datatype Key = KeyR | KeyF3 | KeySpace | OtherKey(code: int)

  /** An event of the batch: a QUIT, a KEYDOWN of some key, or anything else. */
  datatype Event = Quit | KeyDown(key: Key) | OtherEvent

  /** The dictionary `process_events` returns. */
  datatype Flags = Flags(quit: bool, restart: bool, debugToggle: bool)

  const CLEARED := Flags(false, false, false)

  /** The body of the event loop for one event. */
  function HandleEvent(f: Flags, e: Event, gameOver: bool): Flags {
    match e
    case Quit => f.(quit := true)
    case KeyDown(k) =>
      if k == KeyR && gameOver then f.(restart := true)
      else if k == KeyF3 then f.(debugToggle := true)
      else f
    case OtherEvent => f
  }

  /** The flags after the loop over `events`, starting from cleared flags. */
  function EventFlags(events: seq<Event>, gameOver: bool): (f: Flags)
    ensures f.quit ==> Quit in events
    ensures f.restart ==> gameOver && KeyDown(KeyR) in events
    ensures f.debugToggle ==> KeyDown(KeyF3) in events
    decreases |events|
  {
    if events == [] then CLEARED
    else HandleEvent(EventFlags(events[..|events| - 1], gameOver), events[|events| - 1], gameOver)
  }

  /**
   * What the flags mean: quit exactly when the batch holds a QUIT, restart
   * exactly when the game is over and the batch holds a KEYDOWN of R, and
   * debug_toggle exactly when it holds a KEYDOWN of F3. No other event, SPACE
   * included, sets a flag, and the order of the batch does not matter.
   */
  lemma {:induction false} EventFlagsMeaning(events: seq<Event>, gameOver: bool)
    ensures EventFlags(events, gameOver).quit <==> Quit in events
    ensures EventFlags(events, gameOver).restart <==> gameOver && KeyDown(KeyR) in events
    ensures EventFlags(events, gameOver).debugToggle <==> KeyDown(KeyF3) in events
    decreases |events|
  {
    if events != [] {
      var init := events[..|events| - 1];
      EventFlagsMeaning(init, gameOver);
      assert events == init + [events[|events| - 1]];
    }
  }

  /** SPACE never restarts, whether or not the game is over. */
  lemma SpaceNeverRestarts(gameOver: bool)
    ensures !EventFlags([KeyDown(KeySpace)], gameOver).restart
  {
    EventFlagsMeaning([KeyDown(KeySpace)], gameOver);
  }

  /**
   * `get_direction_input` on the state of the four arrow keys: the first key
   * held in the order LEFT, RIGHT, UP, DOWN decides, and with none held the
   * result is (0, 0).
   */
  function DirectionInput(left: bool, right: bool, up: bool, down: bool): (d: Vec)
    ensures IsStep(d)
    ensures d == ZERO <==> !left && !right && !up && !down
  {
    if left then LEFT
    else if right then RIGHT
    else if up then UP
    else if down then DOWN
    else ZERO
  }

  /**
   * Each direction is returned exactly when its key is held and no key of
   * higher priority is; the result is never diagonal.
   */
  lemma DirectionPriority(left: bool, right: bool, up: bool, down: bool)
    ensures var d := DirectionInput(left, right, up, down);
      && (d == LEFT <==> left)
      && (d == RIGHT <==> !left && right)
      && (d == UP <==> !left && !right && up)
      && (d == DOWN <==> !left && !right && !up && down)
      && (d == ZERO <==> !left && !right && !up && !down)
      && IsStep(d)
  {
  }

  class InputHandler {
    var quitRequested: bool
    var restartRequested: bool
    var debugToggleRequested: bool
    var currentDirectionInput: Vec

    /** `__init__`: no request pending and no direction. */
    constructor ()
      ensures !quitRequested && !restartRequested && !debugToggleRequested
      ensures currentDirectionInput == ZERO
    {
      quitRequested, restartRequested, debugToggleRequested := false, false, false;
      currentDirectionInput := ZERO;
    }

    /**
     * `process_events`: clear the three flags, then set them from the batch;
     * the flags returned are the ones stored.
     */
    method ProcessEvents(events: seq<Event>, gameOver: bool) returns (flags: Flags)
      modifies this
      ensures flags == EventFlags(events, gameOver)
      ensures flags == Flags(quitRequested, restartRequested, debugToggleRequested)
      ensures currentDirectionInput == old(currentDirectionInput)
    {
      quitRequested := false;
      restartRequested := false;
      debugToggleRequested := false;
      for i := 0 to |events|
        invariant Flags(quitRequested, restartRequested, debugToggleRequested) == EventFlags(events[..i], gameOver)
        invariant currentDirectionInput == old(currentDirectionInput)
      {
        assert events[..i + 1][..i] == events[..i];
        var event := events[i];
        if event == Quit {
          quitRequested := true;
        } else if event.KeyDown? {
          if event.key == KeyR && gameOver {
            restartRequested := true;
          } else if event.key == KeyF3 {
            debugToggleRequested := true;
          }
        }
      }
      assert events[..|events|] == events;
      flags := Flags(quitRequested, restartRequested, debugToggleRequested);
    }
  }
}
