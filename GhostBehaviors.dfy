/**
 * pacman_game/ai/ghost_behaviors.py: the ghost modes and the target cell each
 * ghost aims for, a pure function of its type, its mode and grid cells.
 */
module GhostBehaviors {
  import opened Config
  import opened Geometry
  import opened Wrappers

  /**
   * The ghost modes. SCATTER, CHASE and FRIGHTENED are the members of the
   * `GhostBehavior` enum; `Idle` is the mode `Ghost.update` tests for, which
   * the enum lacks (see `MemberNamed`): the model adds it as a mode in which
   * a ghost does nothing.
   */
  datatype Mode = Scatter | Chase | Frightened | Idle

  /** The ghost types named by strings in the source; any other string is `Unknown`. */
  datatype GhostType = Blinky | Pinky | Inky | Clyde | Unknown

  /** The ghost type a name denotes. */
  function TypeNamed(name: string): (t: GhostType)
    ensures t == Unknown <==> name !in {"BLINKY", "PINKY", "INKY", "CLYDE"}
  {
    if name == "BLINKY" then Blinky
    else if name == "PINKY" then Pinky
    else if name == "INKY" then Inky
    else if name == "CLYDE" then Clyde
    else Unknown
  }

  // ---------------------------------------------------------------- the enum as written

  /** The members of `GhostBehavior` exactly as the enum declares them. */
  const ENUM_MEMBERS: seq<(string, Mode)> := [("SCATTER", Scatter), ("CHASE", Chase), ("FRIGHTENED", Frightened)]

  /**
   * Attribute lookup `GhostBehavior.<name>` on a list of members: the member
   * of that name, or `None` where Python raises AttributeError.
   */
  function Lookup(members: seq<(string, Mode)>, name: string): (r: Option<Mode>)
    ensures r.Some? ==> (name, r.value) in members
    ensures r.None? ==> forall m :: (name, m) !in members
  {
    if members == [] then None
    else if members[0].0 == name then Some(members[0].1)
    else Lookup(members[1..], name)
  }

  /** `GhostBehavior.<name>` as the enum is written. */
  function MemberNamed(name: string): Option<Mode> {
    Lookup(ENUM_MEMBERS, name)
  }

  /**
   * The enum defines SCATTER, CHASE and FRIGHTENED but not IDLE: the lookup
   * `GhostBehavior.IDLE` that opens `Ghost.update` fails.
   */
  lemma IdleIsNotAMember()
    ensures MemberNamed("SCATTER") == Some(Scatter)
    ensures MemberNamed("CHASE") == Some(Chase)
    ensures MemberNamed("FRIGHTENED") == Some(Frightened)
    ensures MemberNamed("IDLE") == None
  {
    assert ENUM_MEMBERS[0].0 == "SCATTER" && ENUM_MEMBERS[1].0 == "CHASE" && ENUM_MEMBERS[2].0 == "FRIGHTENED";
    assert "IDLE" != "SCATTER" && "IDLE" != "CHASE" && "IDLE" != "FRIGHTENED";
  }

  // ---------------------------------------------------------------- targets

  /** `SCATTER_TARGETS.get(type, (1, 1))`: each type's fixed corner, (1, 1) for any other type. */
  function ScatterTarget(t: GhostType): Vec {
    match t
    case Blinky => Vec(GRID_COLS - 2, 1)
    case Pinky => Vec(1, 1)
    case Inky => Vec(GRID_COLS - 2, GRID_ROWS - 2)
    case Clyde => Vec(1, GRID_ROWS - 2)
    case Unknown => Vec(1, 1)
  }

  /** `max(lo, min(hi, v))`. */
  function Clamp(v: int, lo: int, hi: int): (r: int)
    requires lo <= hi
    ensures lo <= r <= hi
    ensures lo <= v <= hi ==> r == v
    ensures v < lo ==> r == lo
    ensures hi < v ==> r == hi
  {
    if v < lo then lo else if hi < v then hi else v
  }

  predicate InGrid(c: Vec) {
    0 <= c.x < GRID_COLS && 0 <= c.y < GRID_ROWS
  }

  /**
   * A cell clamped to [0, GRID_COLS - 1] x [0, GRID_ROWS - 1], each axis on
   * its own: a coordinate in range is kept, one below it becomes 0 and one
   * above it the last column or row.
   */
  function ClampToGrid(c: Vec): (r: Vec)
    ensures InGrid(r)
    ensures InGrid(c) ==> r == c
    ensures 0 <= c.x < GRID_COLS ==> r.x == c.x
    ensures c.x < 0 ==> r.x == 0
    ensures GRID_COLS <= c.x ==> r.x == GRID_COLS - 1
    ensures 0 <= c.y < GRID_ROWS ==> r.y == c.y
    ensures c.y < 0 ==> r.y == 0
    ensures GRID_ROWS <= c.y ==> r.y == GRID_ROWS - 1
  {
    Vec(Clamp(c.x, 0, GRID_COLS - 1), Clamp(c.y, 0, GRID_ROWS - 1))
  }

  /** Clyde keeps chasing only while farther than this from the player. */
  const CLYDE_SHY_DISTANCE := 8

  /**
   * `get_target_tile`. `blinky` is Blinky's cell or `None`; any cell, (0, 0)
   * included, counts as present. A mode other than the three of the enum falls
   * through to the player's cell.
   */
  function GetTargetTile(t: GhostType, mode: Mode, ghostPos: Vec, playerPos: Vec, playerDir: Vec,
                         blinky: Option<Vec>): (target: Vec)
    ensures target == playerPos || target == ghostPos || InGrid(target)
    ensures mode == Scatter ==> InGrid(target)
  {
    match mode
    case Scatter => ScatterTarget(t)
    case Chase =>
      (match t
       case Blinky => playerPos
       case Pinky => ClampToGrid(playerPos.Add(Times(playerDir, 4)))
       case Inky =>
         if blinky.Some? then
           var pivot := playerPos.Add(Times(playerDir, 2));
           var v := pivot.Sub(blinky.value);
           ClampToGrid(blinky.value.Add(Times(v, 2)))
         else playerPos
       case Clyde =>
         if Manhattan(ghostPos, playerPos) > CLYDE_SHY_DISTANCE then playerPos else ScatterTarget(Clyde)
       case Unknown => playerPos)
    case Frightened => ghostPos
    case Idle => playerPos
  }

  /** Every scatter corner is a cell inside the grid, one cell in from two of its edges. */
  lemma ScatterCornersInGrid(t: GhostType)
    ensures InGrid(ScatterTarget(t))
    ensures ScatterTarget(t).x in {1, GRID_COLS - 2} && ScatterTarget(t).y in {1, GRID_ROWS - 2}
  {
  }

  /** In SCATTER every ghost ignores the player and heads for its own corner. */
  lemma ScatterIgnoresPlayer(t: GhostType, g1: Vec, p1: Vec, d1: Vec, b1: Option<Vec>,
                             g2: Vec, p2: Vec, d2: Vec, b2: Option<Vec>)
    ensures GetTargetTile(t, Scatter, g1, p1, d1, b1) == GetTargetTile(t, Scatter, g2, p2, d2, b2)
    ensures GetTargetTile(t, Scatter, g1, p1, d1, b1) == ScatterTarget(t)
  {
  }

  /** In FRIGHTENED every ghost targets the cell it is on. */
  lemma FrightenedStaysPut(t: GhostType, g: Vec, p: Vec, d: Vec, b: Option<Vec>)
    ensures GetTargetTile(t, Frightened, g, p, d, b) == g
  {
  }

  /** Pinky aims four cells ahead of the player, pulled back onto the grid. */
  lemma PinkyLooksAhead(g: Vec, p: Vec, d: Vec, b: Option<Vec>)
    ensures var r := GetTargetTile(Pinky, Chase, g, p, d, b);
      && r == ClampToGrid(Vec(p.x + 4 * d.x, p.y + 4 * d.y))
      && InGrid(r) && (InGrid(p.Add(Times(d, 4))) ==> r == Vec(p.x + 4 * d.x, p.y + 4 * d.y))
  {
  }

  /**
   * Inky, with Blinky's cell known, aims at the reflection of Blinky through
   * the cell two ahead of the player: that cell is the midpoint of Blinky and
   * the target whenever the target needs no clamping. Without Blinky it aims at
   * the player.
   */
  lemma InkyReflectsBlinky(g: Vec, p: Vec, d: Vec, b: Option<Vec>)
    ensures var r := GetTargetTile(Inky, Chase, g, p, d, b);
      && (b.None? ==> r == p)
      && (b.Some? ==> InGrid(r))
      && (b.Some? ==> r == ClampToGrid(Vec(2 * (p.x + 2 * d.x) - b.value.x, 2 * (p.y + 2 * d.y) - b.value.y)))
      && (b.Some? ==> var raw := Vec(2 * (p.x + 2 * d.x) - b.value.x, 2 * (p.y + 2 * d.y) - b.value.y);
           InGrid(raw) ==> r.x + b.value.x == 2 * (p.x + 2 * d.x) && r.y + b.value.y == 2 * (p.y + 2 * d.y))
  {
  }

  /** Clyde chases while more than eight cells away, and retreats to his corner when closer. */
  lemma ClydeIsShy(g: Vec, p: Vec, d: Vec, b: Option<Vec>)
    ensures Manhattan(g, p) > CLYDE_SHY_DISTANCE ==> GetTargetTile(Clyde, Chase, g, p, d, b) == p
    ensures Manhattan(g, p) <= CLYDE_SHY_DISTANCE ==> GetTargetTile(Clyde, Chase, g, p, d, b) == Vec(1, GRID_ROWS - 2)
  {
  }

  /** Blinky, and a ghost of no known type, chase the player's own cell. */
  lemma BlinkyAndUnknownChasePlayer(g: Vec, p: Vec, d: Vec, b: Option<Vec>)
    ensures GetTargetTile(Blinky, Chase, g, p, d, b) == p
    ensures GetTargetTile(Unknown, Chase, g, p, d, b) == p
  {
  }

  /** A box around the grid, [0, n) x [0, n), with n at least the grid's size. */
  predicate InBox(c: Vec, n: int) {
    0 <= c.x < n && 0 <= c.y < n
  }

  /**
   * A target never leaves a box that holds the grid, the ghost and the player:
   * corners and clamped cells lie in the grid, the other targets are the
   * ghost's or the player's cell.
   */
  lemma TargetStaysInBox(t: GhostType, mode: Mode, g: Vec, p: Vec, d: Vec, b: Option<Vec>, n: int)
    requires GRID_COLS <= n && GRID_ROWS <= n
    requires InBox(g, n) && InBox(p, n)
    ensures InBox(GetTargetTile(t, mode, g, p, d, b), n)
  {
  }

  /** The worked examples: Blinky on the player, Inky from (8, 10) through (12, 10) to (16, 10). */
  lemma TargetExamples()
    ensures GetTargetTile(Blinky, Chase, Vec(0, 0), Vec(1, 1), Vec(1, 0), None) == Vec(1, 1)
    ensures GetTargetTile(Unknown, Chase, Vec(0, 0), Vec(5, 5), Vec(0, 0), None) == Vec(5, 5)
    ensures GetTargetTile(Blinky, Frightened, Vec(3, 3), Vec(0, 0), Vec(0, 0), None) == Vec(3, 3)
    ensures GetTargetTile(Inky, Chase, Vec(0, 0), Vec(10, 10), Vec(1, 0), Some(Vec(8, 10))) == Vec(16, 10)
    ensures GetTargetTile(Inky, Chase, Vec(0, 0), Vec(10, 10), Vec(1, 0), Some(Vec(0, 0))) == Vec(19, 19)
  {
  }

  /** More worked examples: Pinky four cells ahead at (14, 10), Clyde chasing from 20 cells away but retreating from 2. */
  lemma PinkyAndClydeExamples()
    ensures GetTargetTile(Pinky, Chase, Vec(0, 0), Vec(10, 10), Vec(1, 0), None) == Vec(14, 10)
    ensures GetTargetTile(Pinky, Chase, Vec(0, 0), Vec(18, 5), Vec(1, 0), None) == Vec(19, 5)
    ensures GetTargetTile(Clyde, Chase, Vec(0, 0), Vec(10, 10), Vec(1, 0), None) == Vec(10, 10)
    ensures GetTargetTile(Clyde, Chase, Vec(8, 10), Vec(10, 10), Vec(1, 0), None) == Vec(1, 18)
  {
    ClydeIsShy(Vec(0, 0), Vec(10, 10), Vec(1, 0), None);
    ClydeIsShy(Vec(8, 10), Vec(10, 10), Vec(1, 0), None);
  }
}
