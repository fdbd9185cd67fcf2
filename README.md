# Pac-Man game logic in Dafny

A model of the game logic of a small tile-grid Pac-Man clone written in
Python with pygame. Its parts:

- the 20 x 20 wall grid and its collision queries;
- the pellet store, and the older maze that stores walls and dots in one grid;
- grid A* search and the single step a ghost takes along its result;
- the ghosts' target rules, mode timer and re-planning counter;
- the player's turn-then-advance movement;
- circle collision between entities;
- the game state machine (lives, levels, 120-tick transitions);
- the input handler's event folding and arrow-key priority.

Modules follow the source files:

| module | file |
|---|---|
| `Config` | `pacman_game/config.py` |
| `Levels` | `pacman_game/level.py` |
| `Mazes` | `pacman_game/maze.py` |
| `Pathfinding` | `pacman_game/ai/pathfinding.py` |
| `GhostBehaviors` | `pacman_game/ai/ghost_behaviors.py` |
| `Entities` | `pacman_game/entities/base.py` |
| `Players` | `pacman_game/player.py` |
| `Ghosts` | `pacman_game/ghosts.py` |
| `StateMachine` | `pacman_game/state_machine.py` |
| `Input` | `pacman_game/input_handler.py` |

`Geometry` and `Wrappers` hold the shared vector and option types.

**Units.** Every position, speed and radius is an integer in half-pixels,
twice the game's value.
- Positions start at a tile corner plus 15.0 and move by 2 (player) or 1.5
  (ghosts) per tick, so twice a position is always an integer. The model
  therefore does exact integer arithmetic where the game uses floats, with
  no rounding.
- Python's `int(px / 30)` becomes `Geometry.CellOf(2 * px)`, which divides by
  60 and truncates toward zero, as Python does: -5 pixels is cell 0, not -1.

**State.** Objects whose fields the game updates in place are classes:
`PelletManager`, `Maze`, `Entity`, `Player`, `Ghost`, `GameStateMachine`,
`InputHandler`. A* and neighbour listing are methods with loops. The target
rules, the collision test and the movement rule are functions. Each
state-changing method is tied by its postcondition to a pure function, and
the properties are proved as lemmas about that function.

**A\*.** The search is proved correct without assuming anything of the
grid:
- whenever start and goal are free, the search ends, and the path it returns
  is a walk of free, orthogonally adjacent cells no longer than any other walk;
- it returns `None` exactly when the start or the goal is a wall (anything
  off the grid counts as wall) or no walk joins them.

The heap is an ordered list kept sorted by `(f_score, counter)`, the order
`heapq` pops in. Termination uses the pair (cells not yet closed, size of
the open list).

`player.py` only turns when the queued direction is free one step ahead, and
the ghost mode enum has no IDLE member (see Findings).

## Model

| member | source | states |
|---|---|---|
| Geometry.CellOf | pacman_game/level.py:75-78 | the cell of a coordinate is its truncating quotient by the tile: for a non-negative coordinate the cell's span contains it from below, for a negative one from above |
| Geometry.TruncatesTowardZero | pacman_game/level.py:75-78 | truncation toward zero: 5 pixels left of the origin is still cell 0, and -30 pixels is cell -1 |
| Geometry.CellOfSpread | pacman_game/level.py:75-78 | two coordinates less than a tile apart lie in the same or adjacent cells |
| Levels.IsWall | pacman_game/level.py:39-54 | a cell reported as not a wall lies inside the grid: any cell outside the rows or columns is a wall |
| Levels.WallsOnly | pacman_game/level.py:36 | the level's grid keeps 1 for walls and turns pellets and empty cells into 0, cell by cell |
| Levels.WallsOnlyKeepsWalls | pacman_game/level.py:36 | the walls-only grid answers every wall query exactly as the map it was built from |
| Levels.CanMoveTo | pacman_game/level.py:56-90 | a square that passes the four-corner test has all four corner cells inside the grid |
| Levels.FreeSquareHasOpenCentre | pacman_game/level.py:56-90 | a square that passes the four-corner test, with half-width below half a tile, has its centre on an open cell |
| Levels.PelletsOf | pacman_game/level.py:112 | the pellet grid is 1 exactly where the map holds a pellet |
| Levels.CountClear | pacman_game/level.py:114 | clearing one counted cell lowers the grid's count by exactly one |
| Levels.PelletManager.constructor | pacman_game/level.py:109-115 | every pellet of the map is present, none is collected, and the remaining count equals the total |
| Levels.PelletManager.CollectPellet | pacman_game/level.py:117-136 | on an in-bounds pellet cell: 10 points, only that cell cleared, count up by one, one pellet fewer remaining; otherwise, out-of-range coordinates included: 0 points and no change; the store's invariant is kept |
| Levels.PelletManager.PelletsRemaining | pacman_game/level.py:138-145 | total minus collected equals the number of pellets still on the grid and is never negative |
| Levels.PelletManager.Reset | pacman_game/level.py:147-150 | every pellet is back, the count is zero and the remaining count is the original total |
| Levels.CollectTwiceThenReset | pacman_game/level.py:117-150 | tile (1, 1) yields 10 points once and 0 the second time, a far-off position yields 0, and reset restores the total |
| Mazes.Maze.constructor | pacman_game/maze.py:33-39 | the maze is a row-by-row copy of the map with every dot counted, and its invariant (dots on the grid plus dots eaten = total) holds |
| Mazes.CopyIsMap | pacman_game/maze.py:36 | the row-by-row copy the maze starts from equals the map |
| Mazes.Maze.CollectDot | pacman_game/maze.py:75-85 | on an in-bounds dot cell: 10 points, only that cell cleared, counter up by one; otherwise 0 and no change; no wall query changes, and the dot invariant is kept |
| Mazes.Maze.IsWall | pacman_game/maze.py:41-47 | a cell reported free is inside the grid, and a consistent maze reports exactly the walls of the map |
| Mazes.Maze.CanMoveTo | pacman_game/maze.py:49-73 | a square that passes has its corner cells inside the grid, and on a consistent maze the test agrees with the map's |
| Mazes.MazeAgreesWithLevel | pacman_game/maze.py:41-73 | whatever it has eaten, the maze answers every wall query as a new level does |
| Pathfinding.Heuristic | pacman_game/ai/pathfinding.py:6-17 | the Manhattan distance: zero exactly between a cell and itself, and the same in both directions |
| Pathfinding.HeuristicIsDistance | pacman_game/ai/pathfinding.py:6-17 | the heuristic is symmetric and zero exactly between a cell and itself |
| Pathfinding.HeuristicAdmissible | pacman_game/ai/pathfinding.py:6-17 | no walk between two cells is shorter than the heuristic |
| Pathfinding.HeuristicConsistent | pacman_game/ai/pathfinding.py:6-17 | one step changes the heuristic to a goal by at most one |
| Pathfinding.GetNeighbors | pacman_game/ai/pathfinding.py:20-40 | the loop over the four directions builds exactly the list of free cells one step away, in direction order |
| Pathfinding.NeighborsAreAdjacentFreeCells | pacman_game/ai/pathfinding.py:31-40 | a cell is listed exactly when it is free and at Manhattan distance 1 |
| Pathfinding.NeighborsCount | pacman_game/ai/pathfinding.py:35-40 | at most four neighbours, none for a cell walled in on all four sides |
| Pathfinding.NeighborsInOrder | pacman_game/ai/pathfinding.py:35 | neighbours come left, right, up, down, skipping walls |
| Pathfinding.Push | pacman_game/ai/pathfinding.py:87-88 | inserting an entry with a fresh counter keeps the open list strictly ordered by (f, counter) and adds exactly that entry |
| Pathfinding.HeadIsLeast | pacman_game/ai/pathfinding.py:65 | the entry popped first has the least f-score |
| Pathfinding.PathStretch | pacman_game/ai/pathfinding.py:78-88 | a walk of k steps moves at most k in Manhattan distance |
| Pathfinding.LeavesSet | pacman_game/ai/pathfinding.py:72-80 | a walk from inside the closed set to a cell outside it crosses its border at some step |
| Pathfinding.PoppedIsShortest | pacman_game/ai/pathfinding.py:64-75 | an entry popped for a cell not yet closed carries a shortest walk to that cell |
| Pathfinding.NoPathWhenExhausted | pacman_game/ai/pathfinding.py:90-91 | when the open list runs out, no walk reaches the goal |
| Pathfinding.NewEntriesShape | pacman_game/ai/pathfinding.py:78-88 | the entries pushed for a neighbour list are one per unclosed neighbour, each with the walk extended by that cell, f = walk length + heuristic, and strictly increasing counters above the old one |
| Pathfinding.PushedAreOpen | pacman_game/ai/pathfinding.py:78-88 | once those entries are pushed, every older entry is still open and every unclosed neighbour is reached with a walk one step longer |
| Pathfinding.PushNeighbors | pacman_game/ai/pathfinding.py:78-88 | the open list grows by exactly the entries of the unclosed neighbours, in list order, numbered counter + 1, counter + 2, ..., and the counter ends at the last of them; every entry stays a sound walk scored walk length plus heuristic |
| Pathfinding.CloseShrinks | pacman_game/ai/pathfinding.py:75 | closing a cell not yet closed shrinks the set of cells still to close |
| Pathfinding.AStar | pacman_game/ai/pathfinding.py:43-91 | the result is a shortest walk of free, adjacent cells from start to goal, and it is None exactly when the start or the goal is a wall or the goal is unreachable |
| Pathfinding.ShortestSuffix | pacman_game/ai/pathfinding.py:106-111 | after the first step of a shortest walk, the rest is a shortest walk |
| Pathfinding.ShortestToSelf | pacman_game/ai/pathfinding.py:67-69 | the only shortest walk from a free cell to itself is that cell alone |
| Pathfinding.FirstStepGetsNearer | pacman_game/ai/pathfinding.py:106-113 | after the returned step, the target is exactly one step nearer along shortest walks |
| Pathfinding.GetNextDirection | pacman_game/ai/pathfinding.py:94-115 | zero exactly when there is no move (a wall at either end, already there, or no route); otherwise a unit step onto a free cell that begins a shortest walk |
| Pathfinding.RoomRowSearch | pacman_game/ai/pathfinding.py:43-91 | in an open 10 x 10 room, (1, 1) to (3, 1) gives exactly [(1, 1), (2, 1), (3, 1)] |
| Pathfinding.RoomSelfSearch | pacman_game/ai/pathfinding.py:67-69 | in the room, a search from a cell to itself gives that cell alone |
| Pathfinding.RoomOffGridSearch | pacman_game/ai/pathfinding.py:55-57 | a search to or from a cell off the grid gives None |
| GhostBehaviors.TypeNamed | pacman_game/ai/ghost_behaviors.py:15-20 | a name denotes an unknown ghost type exactly when it is none of the four names |
| GhostBehaviors.Lookup | pacman_game/ai/ghost_behaviors.py:7-11 | attribute lookup on the enum finds a declared member or reports that none has the name |
| GhostBehaviors.IdleIsNotAMember | pacman_game/ai/ghost_behaviors.py:7-11 | SCATTER, CHASE and FRIGHTENED resolve, IDLE does not |
| GhostBehaviors.Clamp | pacman_game/ai/ghost_behaviors.py:55-56 | max(lo, min(hi, v)) lies in [lo, hi], is v inside, lo below and hi above |
| GhostBehaviors.ClampToGrid | pacman_game/ai/ghost_behaviors.py:55-56 | each axis is clamped on its own: a coordinate in range is kept, one below 0 becomes 0, one beyond the grid the last column or row; the result is in the grid |
| GhostBehaviors.ScatterCornersInGrid | pacman_game/ai/ghost_behaviors.py:15-20 | every scatter corner is in the grid, one cell in from two edges |
| GhostBehaviors.ScatterIgnoresPlayer | pacman_game/ai/ghost_behaviors.py:40-42 | in SCATTER the target is the type's corner, whatever the positions |
| GhostBehaviors.FrightenedStaysPut | pacman_game/ai/ghost_behaviors.py:93-96 | in FRIGHTENED every type targets its own cell |
| GhostBehaviors.BlinkyAndUnknownChasePlayer | pacman_game/ai/ghost_behaviors.py:46-48 | Blinky, and an unknown type (falling through to the final return), chase the player's cell |
| GhostBehaviors.PinkyLooksAhead | pacman_game/ai/ghost_behaviors.py:50-57 | Pinky's target is the cell four ahead of the player clamped to the grid axis by axis, and that cell itself whenever it is in the grid |
| GhostBehaviors.InkyReflectsBlinky | pacman_game/ai/ghost_behaviors.py:59-80 | without Blinky Inky chases the player; with Blinky at any cell, (0, 0) included, the target is the reflection of Blinky through the pivot two ahead of the player, clamped to the grid axis by axis, and when unclamped the pivot is its midpoint with Blinky |
| GhostBehaviors.ClydeIsShy | pacman_game/ai/ghost_behaviors.py:82-91 | Clyde chases beyond Manhattan distance 8 and heads for (1, 18) within it |
| GhostBehaviors.GetTargetTile | pacman_game/ai/ghost_behaviors.py:23-99 | every target is the player's cell, the ghost's own cell or a cell inside the grid, and a scatter target is always inside the grid |
| GhostBehaviors.TargetStaysInBox | pacman_game/ai/ghost_behaviors.py:23-99 | every target lies in any box that holds the grid, the ghost and the player |
| GhostBehaviors.TargetExamples | pacman_game/ai/ghost_behaviors.py:44-96 | Blinky (1, 1), unknown type (5, 5), frightened (3, 3), Inky (16, 10) from Blinky (8, 10), Inky clamped to (19, 19) from Blinky (0, 0) |
| GhostBehaviors.PinkyAndClydeExamples | pacman_game/ai/ghost_behaviors.py:50-91 | Pinky (14, 10), and (19, 5) clamped from (22, 5); Clyde chases from (0, 0) and retreats to (1, 18) from (8, 10) |
| Entities.Entity.constructor | pacman_game/entities/base.py:8-24 | position, speed and radius are stored as given, direction (0, 0) |
| Entities.Entity.CollidesWith | pacman_game/entities/base.py:30-41 | two entities collide only when their radii add up to more than zero, and exactly when the other entity, asking back, sees the same overlap |
| Entities.OverlapIsDistanceBelowSum | pacman_game/entities/base.py:30-41 | the squared comparison holds exactly when the Euclidean distance is below the radius sum |
| Entities.CollisionSymmetric | pacman_game/entities/base.py:40-41 | collision does not depend on which entity asks |
| Entities.SamePointCollides | pacman_game/entities/base.py:40-41 | entities on the same point, an entity and itself included, collide when the radius sum is positive |
| Entities.CollisionExamples | pacman_game/entities/base.py:40-41 | with radii 11 and 11, 21 pixels apart collide; 25, 38 and 40 pixels apart do not |
| Players.PlayerStep | pacman_game/player.py:43-58 | one tick ends with either the queued or the held direction, moves one step in that direction whenever the square there passes the four-corner test, and otherwise stays |
| Players.PlayerStepRules | pacman_game/player.py:43-58 | the player turns exactly when the queued direction is non-zero and free one step ahead; it then moves one step of the resulting direction exactly when the square there passes the four-corner test, and otherwise stays |
| Players.PlayerStepAxisAligned | pacman_game/player.py:43-58 | with axis-aligned directions one update moves exactly `speed` along one axis or not at all, and keeps an axis-aligned direction |
| Players.Player.constructor | pacman_game/player.py:9-24 | pixel corner plus half a tile, player speed and radius, both directions zero |
| Players.Player.SetNextDirection | pacman_game/player.py:26-33 | the direction is queued verbatim |
| Players.Player.Update | pacman_game/player.py:35-58 | position and direction become one step of the movement rule: the player moves one step in its new direction whenever the square there is free; queued direction, speed and radius are unchanged |
| Players.PlayerTurnsOffCentre | pacman_game/player.py:43-58 | from tile (1, 1) a right turn moves 2 pixels, then an up turn 2 pixels (4 half-pixels) off the centre is taken at once |
| Ghosts.NextPhase | pacman_game/ghosts.py:49-63 | IDLE is neither entered nor left, FRIGHTENED stays FRIGHTENED, and any other tick either counts the timer up by one or resets it to 0 |
| Ghosts.NextPhaseValid | pacman_game/ghosts.py:53-63 | a tick keeps each timer below its mode's duration, never enters or leaves IDLE, and FRIGHTENED only counts |
| Ghosts.ModeSwitchAtDuration | pacman_game/ghosts.py:53-63 | scatter switches to chase, and chase to scatter, on the tick the timer reaches the duration, even from a timer already past it |
| Ghosts.FrightenedLasts | pacman_game/ghosts.py:53-63 | a frightened ghost stays frightened however many ticks pass |
| Ghosts.IdleLasts | pacman_game/ghosts.py:49-51 | an idle ghost's mode and timer never change |
| Ghosts.Schedule | pacman_game/ghosts.py:53-63 | from a new ghost, the modes repeat every 1620 ticks: scatter for the first 420 of each period, chase for the rest |
| Ghosts.CountersWrap | pacman_game/ghosts.py:66-69 | n ticks advance the re-planning counter by n modulo 10 |
| Ghosts.ReplansEveryInterval | pacman_game/ghosts.py:66-69 | a counter started at 0 re-plans on every tenth tick and on no other |
| Ghosts.TargetFor | pacman_game/ghosts.py:92-112 | frightened targets the ghost's cell, scatter the type's corner, and only Inky's target depends on Blinky |
| Ghosts.Ghost.constructor | pacman_game/ghosts.py:12-37 | pixel corner plus half a tile, the given or default speed, scatter mode, both counters zero, no target |
| Ghosts.Ghost.UpdateTarget | pacman_game/ghosts.py:83-118 | the target is that of the current mode from the truncated cells; the direction is kept when there is no move and otherwise becomes the first step of a shortest route; nothing else changes |
| Ghosts.Ghost.AdvanceMode | pacman_game/ghosts.py:53-63 | the mode and timer advance by one tick of the mode timer |
| Ghosts.Ghost.CountTick | pacman_game/ghosts.py:65-69 | the counter advances modulo 10; on the tenth tick the target becomes that of the current mode and the direction the first step of a shortest route to it (kept when there is no move); otherwise target and direction are unchanged |
| Ghosts.Ghost.Step | pacman_game/ghosts.py:71-81 | the ghost moves one step in its direction when the square there is free; otherwise it stays, takes the target of its current mode and turns to the first step of a shortest route to it (keeping its direction when there is no move) |
| Ghosts.Ghost.Update | pacman_game/ghosts.py:39-81 | for a ghost whose body is not the player's: an idle ghost changes nothing; otherwise the timer and counter tick and a valid ghost stays valid; the step is tried in the direction held, re-planned first on a tenth tick toward the target of the current mode from the positions at the start of the tick; the ghost moves one step in it whenever the square there is free, and otherwise stays and re-plans toward that target |
| Ghosts.EveryUpdateRaises | pacman_game/ghosts.py:49 | as written, every call of `update` raises AttributeError |
| StateMachine.InitialIsValid | pacman_game/state_machine.py:17-22 | the machine starts playing level 1 with 3 lives and timer 0, and its invariant holds |
| StateMachine.LevelCompleteRule | pacman_game/state_machine.py:36-50 | true exactly when playing with 0 pellets left, then LEVEL_COMPLETE with the timer at 0; otherwise no change |
| StateMachine.LifeLostRule | pacman_game/state_machine.py:52-70 | true exactly when playing and hit; one life fewer, GAME_OVER when none is left, else LIFE_LOST, timer at 0; otherwise no change |
| StateMachine.TransitionRule | pacman_game/state_machine.py:72-92 | in a transition state the timer counts, and at 120 play resumes, with the level up and 'reload_level' or with 'respawn'; elsewhere nothing happens |
| StateMachine.ReloadThreshold | pacman_game/state_machine.py:79-87 | from LEVEL_COMPLETE with any timer, negative ones included, the level reloads exactly when the timer is at least 119 |
| StateMachine.ApplyKeeps | pacman_game/state_machine.py:36-92 | every call keeps the invariant, never adds a life, never lowers the level and never leaves GAME_OVER |
| StateMachine.RunKeeps | pacman_game/state_machine.py:36-92 | the same holds along any sequence of calls without reset |
| StateMachine.TicksCountUp | pacman_game/state_machine.py:79-83 | below the delay a transition state only counts |
| StateMachine.TransitionDelay | pacman_game/state_machine.py:79-90 | a transition entered with timer 0 yields nothing for 119 ticks and resumes play on the 120th |
| StateMachine.LoseLifeAndRespawn | pacman_game/state_machine.py:52-90 | a life lost with lives to spare is followed, 120 ticks later, by play with one life fewer |
| StateMachine.ThirdCollisionEndsGame | pacman_game/state_machine.py:52-90 | from the start, three collisions separated by the delays end the game with no life left |
| StateMachine.GameStateMachine.constructor | pacman_game/state_machine.py:17-22 | the fields are those of the initial machine |
| StateMachine.GameStateMachine.CheckLevelComplete | pacman_game/state_machine.py:36-50 | the new fields and the result are one level-complete check |
| StateMachine.GameStateMachine.CheckLifeLost | pacman_game/state_machine.py:52-70 | the new fields and the result are one life-lost check |
| StateMachine.GameStateMachine.UpdateTransition | pacman_game/state_machine.py:72-92 | the new fields and the action are one transition tick |
| StateMachine.GameStateMachine.Reset | pacman_game/state_machine.py:94-99 | from any fields at all, the initial machine is restored |
| Input.EventFlags | pacman_game/input_handler.py:25-36 | a flag is only set when its event is in the batch: quit by QUIT, restart by KEYDOWN R with the game over, debug toggle by KEYDOWN F3 |
| Input.EventFlagsMeaning | pacman_game/input_handler.py:25-36 | quit exactly when the batch holds QUIT, restart exactly when the game is over and it holds KEYDOWN R, debug toggle exactly when it holds KEYDOWN F3 |
| Input.SpaceNeverRestarts | pacman_game/input_handler.py:33-34 | SPACE never restarts, game over or not |
| Input.InputHandler.constructor | pacman_game/input_handler.py:8-13 | no request pending and no direction |
| Input.InputHandler.ProcessEvents | pacman_game/input_handler.py:15-42 | the flags are cleared and then folded over the batch; the stored flags are the ones returned |
| Input.DirectionInput | pacman_game/input_handler.py:44-62 | never diagonal, and (0, 0) exactly when no arrow key is held |
| Input.DirectionPriority | pacman_game/input_handler.py:44-62 | LEFT beats RIGHT beats UP beats DOWN, (0, 0) with no arrow held, and the result is never diagonal |

## Left out

- Rendering: pygame windows, every `draw` method, colours, text and the debug overlay (`pacman_game/debug/overlay.py`) are drawing only.
- `pacman_game/game.py` is the main loop and wiring. Its call `ghost.update(self.level)` does not match `Ghost.update(level, player, blinky)`, and the game loop is not part of this model.
- `pacman_game/utils.py` only persists the high score to a file.
- The event queue, the keyboard state and the clock become parameters: an event batch is a sequence, and the arrow keys are four booleans.
- Floating point and `sqrt`: positions are doubled into integers, which is exact for every reachable position. Collision compares squared distances, and `Entities.OverlapIsDistanceBelowSum` states that this is the same as comparing the square root.
- Positions given to the player and ghost constructors are integer pixel corners; a fractional start corner is not modelled.
- Ghosts.Ghost.constructor: the optional speed is given in half-pixels (3 for the default 1.5 pixels), not in pixels.
- The binary-heap layout of `heapq` is not modelled; the open list is a sorted list, which pops entries in the same order.
- Pathfinding.AStar: it promises a shortest walk, not which of several shortest walks the tie-break order produces. No example fixes it: the room example has a single shortest walk. The same freedom carries into Pathfinding.GetNextDirection (`FirstStep`) and into the direction a ghost re-plans to (`Ghosts.Replanned` in Ghosts.Ghost.UpdateTarget, Ghosts.Ghost.CountTick, Ghosts.Ghost.Step and Ghosts.Ghost.Update).
- Players.Player.Update: diagonal queued directions are not rejected, just as in `player.py`. The axis-aligned step property (`Players.PlayerStepAxisAligned`) assumes axis-aligned directions.
- Mode MENU of `GameState` is declared but never entered; `StateMachine.Valid` excludes it.
- `GetState`, `IsPlaying` and `IsGameOver` are plain field reads and have no contract of their own. Under `StateMachine.Valid`, GAME_OVER is the same as having no life left.
- Behaviour that appears only in the tests, with no code behind it, is not modelled: input buffering, centre tolerance, reversal, wall-slide snapping and `is_intersection`.

## Findings

| source | as written | input that shows it | evidently intended | confidence | as-written member | corrected member |
|---|---|---|---|---|---|---|
| pacman_game/ghosts.py:49 | `update` first compares the mode with `GhostBehavior.IDLE`. The enum at pacman_game/ai/ghost_behaviors.py:7-11 declares only SCATTER, CHASE and FRIGHTENED, so the lookup raises AttributeError on every call. | any ghost, e.g. a new one in SCATTER, on its first `update` | IDLE is a mode in which a ghost does nothing; in every other mode the timer, counter and movement run | not executed | Ghosts.EveryUpdateRaises | Ghosts.Ghost.Update |
