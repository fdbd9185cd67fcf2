/**
 * pacman_game/ai/pathfinding.py: grid neighbours, A* search over the free
 * cells of a level, and the first step of the path it finds.
 *
 * The open list of `a_star` is a binary heap of tuples
 * `(f_score, counter, position, path)`. Counters are never repeated, so the
 * heap always pops the entry with the least `(f_score, counter)` and no
 * comparison reaches the position or the path. The model keeps the open list
 * as a sequence sorted by that key: its head is the entry `heappop` returns.
 */
module Pathfinding {
  import opened Geometry
  import opened Wrappers
  import opened Levels

  /** `heuristic`: the Manhattan distance between two cells. */
  function Heuristic(a: Vec, b: Vec): (h: nat)
    ensures h == 0 <==> a == b
    ensures h == Manhattan(b, a)
  {
    Manhattan(a, b)
  }

  /** The heuristic is a distance: symmetric, and zero exactly between a cell and itself. */
  lemma HeuristicIsDistance(a: Vec, b: Vec)
    ensures Heuristic(a, b) == Heuristic(b, a)
    ensures Heuristic(a, b) == 0 <==> a == b
  {
  }

  /** A cell that `level.is_wall` reports as free (and so lies inside the grid). */
  predicate Free(g: Grid, c: Vec) {
    !IsWall(g, c.x, c.y)
  }

  /** `n` is one step away from `c` and free. */
  predicate IsNeighbor(g: Grid, c: Vec, n: Vec) {
    Free(g, n) && Manhattan(c, n) == 1
  }

  /** A walk over free cells from `s` to `t`, one orthogonal step at a time. */
  ghost predicate IsPath(g: Grid, p: seq<Vec>, s: Vec, t: Vec) {
    && 1 <= |p| && p[0] == s && p[|p| - 1] == t
    && (forall k :: 0 <= k < |p| ==> Free(g, p[k]))
    && (forall k :: 0 <= k < |p| - 1 ==> Manhattan(p[k], p[k + 1]) == 1)
  }

  /** No walk from `s` to `t` visits fewer cells than `p`. */
  ghost predicate IsShortest(g: Grid, p: seq<Vec>, s: Vec, t: Vec) {
    forall q :: IsPath(g, q, s, t) ==> |p| <= |q|
  }

  ghost predicate Reachable(g: Grid, s: Vec, t: Vec) {
    exists q :: IsPath(g, q, s, t)
  }

  /** Every cell of the grid. */
  ghost function Cells(g: Grid): set<Vec> {
    set x, y | 0 <= y < |g| && 0 <= x < |g[0]| :: Vec(x, y)
  }

  // ---------------------------------------------------------------- neighbours

  /** The four directions in the order `get_neighbors` tries them. */
  const DELTAS: seq<Vec> := [LEFT, RIGHT, UP, DOWN]

  /** The free cells among `pos + d` for `d` in `ds`, in the order of `ds`. */
  function OpenSteps(g: Grid, pos: Vec, ds: seq<Vec>): seq<Vec> {
    if ds == [] then []
    else
      var prev := OpenSteps(g, pos, ds[..|ds| - 1]);
      var n := pos.Add(ds[|ds| - 1]);
      if Free(g, n) then prev + [n] else prev
  }

  /** What `get_neighbors` returns. */
  function Neighbors(g: Grid, pos: Vec): seq<Vec> {
    OpenSteps(g, pos, DELTAS)
  }

  /** `get_neighbors`: one pass over the four directions, keeping the free cells. */
  method GetNeighbors(g: Grid, pos: Vec) returns (neighbors: seq<Vec>)
    ensures neighbors == Neighbors(g, pos)
  {
    neighbors := [];
    for i := 0 to |DELTAS|
      invariant neighbors == OpenSteps(g, pos, DELTAS[..i])
    {
      var d := DELTAS[i];
      var n := pos.Add(d);
      if !IsWall(g, n.x, n.y) {
        neighbors := neighbors + [n];
      }
      assert DELTAS[..i + 1][..i] == DELTAS[..i];
    }
    assert DELTAS[..|DELTAS|] == DELTAS;
  }

  lemma {:induction false} OpenStepsMembers(g: Grid, pos: Vec, ds: seq<Vec>, n: Vec)
    ensures n in OpenSteps(g, pos, ds) <==> Free(g, n) && exists d :: d in ds && n == pos.Add(d)
  {
    if ds != [] {
      var init := ds[..|ds| - 1];
      OpenStepsMembers(g, pos, init, n);
      assert ds == init + [ds[|ds| - 1]];
      if n in OpenSteps(g, pos, init) {
        var d :| d in init && n == pos.Add(d);
        assert d in ds;
      }
    }
  }

  /** The neighbours are exactly the free cells one orthogonal step away. */
  lemma NeighborsAreAdjacentFreeCells(g: Grid, pos: Vec, n: Vec)
    ensures n in Neighbors(g, pos) <==> IsNeighbor(g, pos, n)
  {
    OpenStepsMembers(g, pos, DELTAS, n);
    if IsNeighbor(g, pos, n) {
      var d := n.Sub(pos);
      assert d in DELTAS;
      assert n == pos.Add(d);
    }
  }

  lemma {:induction false} OpenStepsLength(g: Grid, pos: Vec, ds: seq<Vec>)
    ensures |OpenSteps(g, pos, ds)| <= |ds|
  {
    if ds != [] {
      OpenStepsLength(g, pos, ds[..|ds| - 1]);
    }
  }

  /** A cell has at most four neighbours, and a cell boxed in by walls has none. */
  lemma NeighborsCount(g: Grid, pos: Vec)
    ensures |Neighbors(g, pos)| <= 4
    ensures (forall d :: d in DELTAS ==> !Free(g, pos.Add(d))) ==> Neighbors(g, pos) == []
  {
    OpenStepsLength(g, pos, DELTAS);
    if Neighbors(g, pos) != [] {
      var n := Neighbors(g, pos)[0];
      OpenStepsMembers(g, pos, DELTAS, n);
    }
  }

  /** The position of a direction in DELTAS: left 0, right 1, up 2, down 3. */
  function DirIndex(d: Vec): int {
    if d == LEFT then 0 else if d == RIGHT then 1 else if d == UP then 2 else if d == DOWN then 3 else 4
  }

  /** The cells `ns` lie around `pos` in strictly increasing DELTAS order. */
  predicate InDeltaOrder(pos: Vec, ns: seq<Vec>) {
    forall i, j :: 0 <= i < j < |ns| ==> DirIndex(ns[i].Sub(pos)) < DirIndex(ns[j].Sub(pos))
  }

  lemma {:induction false} OpenStepsInOrder(g: Grid, pos: Vec, k: int)
    requires 0 <= k <= |DELTAS|
    ensures forall e :: e in OpenSteps(g, pos, DELTAS[..k]) ==> DirIndex(e.Sub(pos)) < k
    ensures InDeltaOrder(pos, OpenSteps(g, pos, DELTAS[..k]))
  {
    if k > 0 {
      OpenStepsInOrder(g, pos, k - 1);
      assert DELTAS[..k][..k - 1] == DELTAS[..k - 1];
      var prev := OpenSteps(g, pos, DELTAS[..k - 1]);
      var n := pos.Add(DELTAS[k - 1]);
      assert n.Sub(pos) == DELTAS[k - 1];
      assert DirIndex(n.Sub(pos)) == k - 1;
      var ns := OpenSteps(g, pos, DELTAS[..k]);
      assert ns == if Free(g, n) then prev + [n] else prev;
      forall i, j | 0 <= i < j < |ns| ensures DirIndex(ns[i].Sub(pos)) < DirIndex(ns[j].Sub(pos)) {
        if j == |prev| {
          assert Free(g, n) && ns == prev + [n];
          assert ns[j] == n;
          assert ns[i] == prev[i] && prev[i] in prev;
          assert DirIndex(prev[i].Sub(pos)) < k - 1;
        } else {
          assert ns[i] == prev[i] && ns[j] == prev[j];
          assert DirIndex(prev[i].Sub(pos)) < DirIndex(prev[j].Sub(pos));
        }
      }
    }
  }

  /** `get_neighbors` lists the neighbours left, right, up, down, skipping the walls. */
  lemma NeighborsInOrder(g: Grid, pos: Vec)
    ensures InDeltaOrder(pos, Neighbors(g, pos))
  {
    assert DELTAS[..|DELTAS|] == DELTAS;
    assert Neighbors(g, pos) == OpenSteps(g, pos, DELTAS[..|DELTAS|]);
    OpenStepsInOrder(g, pos, |DELTAS|);
  }

  // ---------------------------------------------------------------- the open list

  /** A heap tuple `(f_score, counter, position, path)`. */
  datatype Entry = Entry(f: int, counter: int, cell: Vec, path: seq<Vec>)

  /** The heap's tuple order, decided by the first two components. */
  predicate Before(a: Entry, b: Entry) {
    a.f < b.f || (a.f == b.f && a.counter < b.counter)
  }

  /** Strictly increasing by `(f_score, counter)`: the head is the unique least entry. */
  predicate Ordered(q: seq<Entry>) {
    forall i, j :: 0 <= i < j < |q| ==> Before(q[i], q[j])
  }

  /** `heappush` of an entry whose counter is new: the open list grows by exactly `x`. */
  function Push(q: seq<Entry>, x: Entry): (r: seq<Entry>)
    requires Ordered(q)
    requires forall y :: y in q ==> y.counter < x.counter
    ensures Ordered(r)
    ensures multiset(r) == multiset(q) + multiset{x}
    ensures forall y :: y in r <==> y in q || y == x
  {
    if q == [] then [x]
    else if Before(x, q[0]) then [x] + q
    else
      var rest := Push(q[1..], x);
      assert q == [q[0]] + q[1..];
      assert forall y :: y in rest ==> Before(q[0], y);
      [q[0]] + rest
  }

  /** The head of an ordered open list has the least f-score of all entries. */
  lemma HeadIsLeast(q: seq<Entry>, x: Entry)
    requires Ordered(q) && x in q
    ensures q[0].f <= x.f
  {
    var k :| 0 <= k < |q| && q[k] == x;
    if k != 0 {
      assert Before(q[0], q[k]);
    }
  }

  // ---------------------------------------------------------------- walks

  /** A walk of `k - i` steps moves at most `k - i` cells in Manhattan distance. */
  lemma {:induction false} PathStretch(g: Grid, p: seq<Vec>, s: Vec, t: Vec, i: int, k: int)
    requires IsPath(g, p, s, t)
    requires 0 <= i <= k < |p|
    ensures Manhattan(p[i], p[k]) <= k - i
    decreases k - i
  {
    if i < k {
      PathStretch(g, p, s, t, i, k - 1);
      ManhattanTriangle(p[i], p[k - 1], p[k]);
    }
  }

  /** `heuristic` is admissible: no walk from `a` to `b` is shorter than it. */
  lemma HeuristicAdmissible(g: Grid, p: seq<Vec>, a: Vec, b: Vec)
    requires IsPath(g, p, a, b)
    ensures Heuristic(a, b) <= |p| - 1
  {
    PathStretch(g, p, a, b, 0, |p| - 1);
  }

  /** The heuristic is consistent: one step changes it by at most one. */
  lemma HeuristicConsistent(a: Vec, b: Vec, goal: Vec)
    requires Manhattan(a, b) == 1
    ensures Heuristic(a, goal) <= 1 + Heuristic(b, goal)
  {
    ManhattanTriangle(a, b, goal);
  }

  lemma PathPrefix(g: Grid, p: seq<Vec>, s: Vec, t: Vec, j: int)
    requires IsPath(g, p, s, t) && 0 <= j < |p|
    ensures IsPath(g, p[..j + 1], s, p[j])
  {
  }

  lemma PathExtend(g: Grid, p: seq<Vec>, s: Vec, t: Vec, n: Vec)
    requires IsPath(g, p, s, t) && IsNeighbor(g, t, n)
    ensures IsPath(g, p + [n], s, n)
  {
  }

  /** A walk that starts inside `closed` and ends outside it crosses its border somewhere. */
  lemma {:induction false} LeavesSet(g: Grid, p: seq<Vec>, s: Vec, t: Vec, closed: set<Vec>) returns (i: int)
    requires IsPath(g, p, s, t) && s in closed && t !in closed
    ensures 0 < i < |p| && p[i - 1] in closed && p[i] !in closed
    ensures IsPath(g, p[..i], s, p[i - 1]) && IsNeighbor(g, p[i - 1], p[i])
    decreases |p|
  {
    if p[1] !in closed {
      i := 1;
    } else {
      var rest := LeavesSet(g, p[1..], p[1], t, closed);
      i := rest + 1;
    }
    PathPrefix(g, p, s, t, i - 1);
  }

  // ---------------------------------------------------------------- search invariants

  /** Some open entry reaches `n` by a walk of at most `bound` steps. */
  ghost predicate Reached(open: seq<Entry>, n: Vec, bound: int) {
    exists x :: x in open && x.cell == n && |x.path| - 1 <= bound
  }

  /** Every open entry carries a walk from the start to its cell and a counter already handed out. */
  ghost predicate EntriesSound(g: Grid, start: Vec, open: seq<Entry>, counter: int) {
    && Ordered(open)
    && (forall x :: x in open ==> x.counter <= counter)
    && (forall x :: x in open ==> IsPath(g, x.path, start, x.cell))
  }

  /** Every open entry is scored `g + h`: walk length plus the heuristic to the goal. */
  ghost predicate Scored(open: seq<Entry>, goal: Vec) {
    forall x :: x in open ==> x.f == |x.path| - 1 + Heuristic(x.cell, goal)
  }

  /** `dist` records, for each closed cell, a walk length no walk from the start beats. */
  ghost predicate ClosedOptimal(g: Grid, start: Vec, closed: set<Vec>, dist: map<Vec, int>) {
    && dist.Keys == closed
    && forall c, q :: c in closed && IsPath(g, q, start, c) ==> dist[c] <= |q| - 1
  }

  /** Every open cell next to a closed one is reached by an entry no longer than one step past it. */
  ghost predicate FrontierCovered(g: Grid, open: seq<Entry>, closed: set<Vec>, dist: map<Vec, int>) {
    && dist.Keys == closed
    && forall c, n :: c in closed && n !in closed && IsNeighbor(g, c, n) ==> Reached(open, n, dist[c] + 1)
  }

  /**
   * A walk from the start to a cell outside `closed` passes an open entry
   * whose walk is no longer than the walk's own prefix to that entry's cell.
   */
  lemma FrontierEntry(g: Grid, start: Vec, t: Vec, open: seq<Entry>, closed: set<Vec>,
                      dist: map<Vec, int>, q: seq<Vec>) returns (x: Entry, i: int)
    requires ClosedOptimal(g, start, closed, dist) && FrontierCovered(g, open, closed, dist)
    requires start in closed && t !in closed && IsPath(g, q, start, t)
    ensures x in open && 0 < i < |q| && x.cell == q[i] && |x.path| - 1 <= i
  {
    i := LeavesSet(g, q, start, t, closed);
    var c, n := q[i - 1], q[i];
    assert dist[c] <= i - 1;
    assert Reached(open, n, dist[c] + 1);
    x :| x in open && x.cell == n && |x.path| - 1 <= dist[c] + 1;
  }

  /**
   * The entry `heappop` returns, when its cell is not closed yet, carries a
   * shortest walk to its cell: this is where the consistent heuristic matters.
   */
  lemma PoppedIsShortest(g: Grid, start: Vec, goal: Vec, open: seq<Entry>, counter: int,
                         closed: set<Vec>, dist: map<Vec, int>, q: seq<Vec>)
    requires open != [] && EntriesSound(g, start, open, counter) && Scored(open, goal)
    requires ClosedOptimal(g, start, closed, dist) && FrontierCovered(g, open, closed, dist)
    requires start in closed && open[0].cell !in closed
    requires IsPath(g, q, start, open[0].cell)
    ensures |open[0].path| <= |q|
  {
    var t := open[0].cell;
    var x, i := FrontierEntry(g, start, t, open, closed, dist, q);
    HeadIsLeast(open, x);
    assert x.f == |x.path| - 1 + Heuristic(q[i], goal);
    assert open[0] in open;
    assert open[0].f == |open[0].path| - 1 + Heuristic(t, goal);
    PathStretch(g, q, start, t, i, |q| - 1);
    ManhattanTriangle(q[i], t, goal);
  }

  /** An exhausted open list with a covered frontier: the goal cannot be reached. */
  lemma NoPathWhenExhausted(g: Grid, start: Vec, goal: Vec, closed: set<Vec>, dist: map<Vec, int>)
    requires FrontierCovered(g, [], closed, dist)
    requires start in closed && goal !in closed
    ensures !Reachable(g, start, goal)
  {
    forall q | IsPath(g, q, start, goal) ensures false {
      var i := LeavesSet(g, q, start, goal, closed);
    }
  }

  /** Dropping a popped entry whose cell is closed leaves the frontier covered. */
  lemma SkipKeepsFrontier(g: Grid, open: seq<Entry>, closed: set<Vec>, dist: map<Vec, int>)
    requires open != [] && open[0].cell in closed
    requires FrontierCovered(g, open, closed, dist)
    ensures FrontierCovered(g, open[1..], closed, dist)
  {
    forall c, n | c in closed && n !in closed && IsNeighbor(g, c, n)
      ensures Reached(open[1..], n, dist[c] + 1)
    {
      var x :| x in open && x.cell == n && |x.path| - 1 <= dist[c] + 1;
      assert x != open[0];
      assert open == [open[0]] + open[1..];
    }
  }

  /** Closing the popped cell and pushing its open neighbours keeps the frontier covered. */
  lemma CloseKeepsFrontier(g: Grid, open0: seq<Entry>, open: seq<Entry>, closed: set<Vec>,
                           dist: map<Vec, int>)
    requires open0 != [] && open0[0].cell !in closed
    requires FrontierCovered(g, open0, closed, dist)
    requires forall x :: x in open0[1..] ==> x in open
    requires forall n :: n in Neighbors(g, open0[0].cell) && n !in closed + {open0[0].cell} ==>
      Reached(open, n, |open0[0].path|)
    ensures FrontierCovered(g, open, closed + {open0[0].cell},
                            dist[open0[0].cell := |open0[0].path| - 1])
  {
    var e := open0[0];
    var closed' := closed + {e.cell};
    var dist' := dist[e.cell := |e.path| - 1];
    forall c, n | c in closed' && n !in closed' && IsNeighbor(g, c, n)
      ensures Reached(open, n, dist'[c] + 1)
    {
      if c == e.cell {
        NeighborsAreAdjacentFreeCells(g, c, n);
      } else {
        var x :| x in open0 && x.cell == n && |x.path| - 1 <= dist[c] + 1;
        assert x != e;
        assert open0 == [e] + open0[1..];
        assert x in open;
      }
    }
  }

  /** Closing the popped cell at the length of its entry's walk keeps every closed length optimal. */
  lemma CloseKeepsOptimal(g: Grid, start: Vec, goal: Vec, open: seq<Entry>, counter: int,
                          closed: set<Vec>, dist: map<Vec, int>)
    requires open != [] && EntriesSound(g, start, open, counter)
    requires closed == {} ==> open == [Entry(0, 0, start, [start])]
    requires closed != {} ==> start in closed && Scored(open, goal)
    requires ClosedOptimal(g, start, closed, dist) && FrontierCovered(g, open, closed, dist)
    requires open[0].cell !in closed
    ensures ClosedOptimal(g, start, closed + {open[0].cell}, dist[open[0].cell := |open[0].path| - 1])
  {
    var e := open[0];
    forall c, q | c in closed + {e.cell} && IsPath(g, q, start, c)
      ensures dist[e.cell := |e.path| - 1][c] <= |q| - 1
    {
      if c == e.cell && closed != {} {
        PoppedIsShortest(g, start, goal, open, counter, closed, dist, q);
      }
    }
  }

  // ---------------------------------------------------------------- a_star

  /**
   * The entries the inner loop of `a_star` pushes for the neighbours `ns` of
   * the last cell of `path`, in order: one per neighbour not closed, whose walk
   * is `path` extended by it, scored walk length plus heuristic, with the
   * counters after `c0` handed out one by one.
   */
  function NewEntries(goal: Vec, path: seq<Vec>, ns: seq<Vec>, closed: set<Vec>, c0: int): seq<Entry>
    decreases |ns|
  {
    if ns == [] then []
    else
      var prev := NewEntries(goal, path, ns[..|ns| - 1], closed, c0);
      var n := ns[|ns| - 1];
      if n in closed then prev
      else prev + [Entry(|path| + Heuristic(n, goal), c0 + |prev| + 1, n, path + [n])]
  }

  /** One more neighbour: its entry, if it is not closed, comes after the earlier ones. */
  lemma NewEntriesStep(goal: Vec, path: seq<Vec>, ns: seq<Vec>, closed: set<Vec>, c0: int, j: int)
    requires 0 <= j < |ns|
    ensures var prev := NewEntries(goal, path, ns[..j], closed, c0);
      NewEntries(goal, path, ns[..j + 1], closed, c0) ==
        if ns[j] in closed then prev
        else prev + [Entry(|path| + Heuristic(ns[j], goal), c0 + |prev| + 1, ns[j], path + [ns[j]])]
  {
    assert ns[..j + 1][..j] == ns[..j];
  }

  /**
   * What is pushed: an entry exists for a cell exactly when it is a
   * neighbour that is not closed, its walk is `path` extended by that cell,
   * its score is walk length plus heuristic, its counter is fresh, and no two
   * entries share a counter.
   */
  lemma {:induction false} NewEntriesShape(goal: Vec, path: seq<Vec>, ns: seq<Vec>, closed: set<Vec>, c0: int)
    ensures var es := NewEntries(goal, path, ns, closed, c0);
      && |es| <= |ns|
      && (forall n :: n in ns && n !in closed <==> exists x :: x in es && x.cell == n)
      && (forall x :: x in es ==>
            && x.path == path + [x.cell] && x.f == |path| + Heuristic(x.cell, goal)
            && c0 < x.counter <= c0 + |es|)
      && (forall i, j :: 0 <= i < j < |es| ==> es[i].counter < es[j].counter)
    decreases |ns|
  {
    if ns != [] {
      var init := ns[..|ns| - 1];
      NewEntriesShape(goal, path, init, closed, c0);
      assert ns == init + [ns[|ns| - 1]];
      var prev := NewEntries(goal, path, init, closed, c0);
      var n := ns[|ns| - 1];
      if n !in closed {
        var es := NewEntries(goal, path, ns, closed, c0);
        assert es[|es| - 1].cell == n;
        forall m | m in ns && m !in closed ensures exists x :: x in es && x.cell == m {
          if m != n {
            assert m in init;
            var x :| x in prev && x.cell == m;
            assert x in es;
          }
        }
      }
    }
  }

  /** The invariant of the inner loop after `j` neighbours: exactly their entries have been pushed. */
  ghost predicate PushedSoFar(g: Grid, start: Vec, goal: Vec, path: seq<Vec>, ns: seq<Vec>, closed: set<Vec>,
                              open0: seq<Entry>, c0: int, open: seq<Entry>, counter: int, j: int) {
    && 0 <= j <= |ns|
    && EntriesSound(g, start, open, counter) && Scored(open, goal)
    && multiset(open) == multiset(open0) + multiset(NewEntries(goal, path, ns[..j], closed, c0))
    && counter == c0 + |NewEntries(goal, path, ns[..j], closed, c0)|
  }

  /** A closed neighbour is skipped: nothing is pushed for it. */
  lemma SkipClosedNeighbor(g: Grid, start: Vec, goal: Vec, path: seq<Vec>, ns: seq<Vec>, closed: set<Vec>,
                           open0: seq<Entry>, c0: int, open: seq<Entry>, counter: int, j: int)
    requires PushedSoFar(g, start, goal, path, ns, closed, open0, c0, open, counter, j)
    requires j < |ns| && ns[j] in closed
    ensures PushedSoFar(g, start, goal, path, ns, closed, open0, c0, open, counter, j + 1)
  {
    NewEntriesStep(goal, path, ns, closed, c0, j);
  }

  /** An open neighbour gets the next counter, and pushing its entry keeps the loop invariant. */
  lemma PushNeighborStep(g: Grid, start: Vec, goal: Vec, path: seq<Vec>, cur: Vec, ns: seq<Vec>, closed: set<Vec>,
                         open0: seq<Entry>, c0: int, open: seq<Entry>, counter: int, j: int)
    requires PushedSoFar(g, start, goal, path, ns, closed, open0, c0, open, counter, j)
    requires IsPath(g, path, start, cur) && ns == Neighbors(g, cur)
    requires j < |ns| && ns[j] !in closed
    ensures var e := Entry(|path| + Heuristic(ns[j], goal), counter + 1, ns[j], path + [ns[j]]);
      && Ordered(open) && (forall y :: y in open ==> y.counter < e.counter)
      && PushedSoFar(g, start, goal, path, ns, closed, open0, c0, Push(open, e), counter + 1, j + 1)
  {
    var n := ns[j];
    var e := Entry(|path| + Heuristic(n, goal), counter + 1, n, path + [n]);
    NewEntriesStep(goal, path, ns, closed, c0, j);
    NeighborsAreAdjacentFreeCells(g, cur, n);
    PathExtend(g, path, start, cur, n);
    var prev := NewEntries(goal, path, ns[..j], closed, c0);
    assert multiset(prev + [e]) == multiset(prev) + multiset{e};
  }

  /**
   * The inner loop of `a_star`: push an entry for every neighbour that is not
   * closed, scored by walk length plus heuristic, each with the next counter.
   */
  method PushNeighbors(g: Grid, start: Vec, goal: Vec, path: seq<Vec>, cur: Vec,
                       neighbors: seq<Vec>, closed: set<Vec>, open0: seq<Entry>, counter0: int)
    returns (open: seq<Entry>, counter: int)
    requires EntriesSound(g, start, open0, counter0) && Scored(open0, goal)
    requires IsPath(g, path, start, cur)
    requires neighbors == Neighbors(g, cur)
    ensures EntriesSound(g, start, open, counter) && Scored(open, goal)
    ensures var pushed := NewEntries(goal, path, neighbors, closed, counter0);
      && multiset(open) == multiset(open0) + multiset(pushed)
      && counter == counter0 + |pushed|
    ensures forall x :: x in open0 ==> x in open
    ensures forall n :: n in neighbors && n !in closed ==> Reached(open, n, |path|)
  {
    open, counter := open0, counter0;
    for j := 0 to |neighbors|
      invariant PushedSoFar(g, start, goal, path, neighbors, closed, open0, counter0, open, counter, j)
    {
      var neighbor := neighbors[j];
      if neighbor in closed {
        SkipClosedNeighbor(g, start, goal, path, neighbors, closed, open0, counter0, open, counter, j);
        continue;
      }
      PushNeighborStep(g, start, goal, path, cur, neighbors, closed, open0, counter0, open, counter, j);
      var newPath := path + [neighbor];
      var gScore := |newPath| - 1;
      var hScore := Heuristic(neighbor, goal);
      var entry := Entry(gScore + hScore, counter + 1, neighbor, newPath);
      assert entry == Entry(|path| + Heuristic(neighbors[j], goal), counter + 1, neighbors[j], path + [neighbors[j]]);
      open, counter := Push(open, entry), counter + 1;
    }
    assert neighbors[..|neighbors|] == neighbors;
    PushedAreOpen(goal, path, neighbors, closed, counter0, open0, open);
  }

  /** Once everything pushed is in the open list, so are the old entries, and every open neighbour is reached. */
  lemma PushedAreOpen(goal: Vec, path: seq<Vec>, ns: seq<Vec>, closed: set<Vec>, c0: int,
                      open0: seq<Entry>, open: seq<Entry>)
    requires multiset(open) == multiset(open0) + multiset(NewEntries(goal, path, ns, closed, c0))
    ensures forall x :: x in open0 ==> x in open
    ensures forall n :: n in ns && n !in closed ==> Reached(open, n, |path|)
  {
    var pushed := NewEntries(goal, path, ns, closed, c0);
    NewEntriesShape(goal, path, ns, closed, c0);
    forall x | x in open0 ensures x in open {
      assert x in multiset(open0);
      assert x in multiset(open);
    }
    forall n | n in ns && n !in closed ensures Reached(open, n, |path|) {
      var x :| x in pushed && x.cell == n;
      assert x in multiset(pushed);
      assert x in multiset(open);
    }
  }

  /** Closing a free cell that is not closed yet brings the search one cell nearer its end. */
  lemma CloseShrinks(g: Grid, start: Vec, e: Entry, closed: set<Vec>)
    requires IsPath(g, e.path, start, e.cell) && e.cell !in closed
    ensures |Cells(g) - (closed + {e.cell})| < |Cells(g) - closed|
  {
    assert Free(g, e.path[|e.path| - 1]);
    assert e.cell == Vec(e.cell.x, e.cell.y);
    var left := Cells(g) - closed;
    assert e.cell in left;
    assert Cells(g) - (closed + {e.cell}) == left - {e.cell};
    assert left == (left - {e.cell}) + {e.cell};
  }

  /** The loop invariant of `a_star`, over the open list, the closed set and the ghost map of closed lengths. */
  ghost predicate SearchInv(g: Grid, start: Vec, goal: Vec, open: seq<Entry>, closed: set<Vec>,
                            dist: map<Vec, int>, counter: int) {
    && EntriesSound(g, start, open, counter)
    && (closed == {} ==> open == [Entry(0, 0, start, [start])])
    && (closed != {} ==> start in closed && Scored(open, goal))
    && goal !in closed
    && ClosedOptimal(g, start, closed, dist)
    && FrontierCovered(g, open, closed, dist)
  }

  /** The first entry is the start alone, with f-score 0 and counter 0. */
  lemma SearchStarts(g: Grid, start: Vec, goal: Vec)
    requires Free(g, start)
    ensures SearchInv(g, start, goal, [Entry(0, 0, start, [start])], {}, map[], 0)
  {
  }

  /** Popping the goal: its entry's walk is a shortest walk from the start. */
  lemma GoalStep(g: Grid, start: Vec, goal: Vec, open: seq<Entry>, closed: set<Vec>,
                 dist: map<Vec, int>, counter: int)
    requires SearchInv(g, start, goal, open, closed, dist, counter)
    requires open != [] && open[0].cell == goal
    ensures IsPath(g, open[0].path, start, goal) && IsShortest(g, open[0].path, start, goal)
  {
    assert open[0] in open;
    forall q | IsPath(g, q, start, goal) ensures |open[0].path| <= |q| {
      if closed != {} {
        PoppedIsShortest(g, start, goal, open, counter, closed, dist, q);
      }
    }
  }

  /** Popping an entry whose cell is already closed (`continue`). */
  lemma SkipStep(g: Grid, start: Vec, goal: Vec, open: seq<Entry>, closed: set<Vec>,
                 dist: map<Vec, int>, counter: int)
    requires SearchInv(g, start, goal, open, closed, dist, counter)
    requires open != [] && open[0].cell in closed
    ensures SearchInv(g, start, goal, open[1..], closed, dist, counter)
  {
    SkipKeepsFrontier(g, open, closed, dist);
  }

  /** What the rest of the open list keeps after a pop, ready for the neighbours to be pushed. */
  lemma PopStep(g: Grid, start: Vec, goal: Vec, open: seq<Entry>, closed: set<Vec>,
                dist: map<Vec, int>, counter: int)
    requires SearchInv(g, start, goal, open, closed, dist, counter)
    requires open != []
    ensures EntriesSound(g, start, open[1..], counter) && Scored(open[1..], goal)
    ensures IsPath(g, open[0].path, start, open[0].cell)
  {
    assert open[0] in open;
  }

  /** Closing the popped cell and pushing its open neighbours re-establishes the invariant. */
  lemma CloseStep(g: Grid, start: Vec, goal: Vec, open0: seq<Entry>, closed: set<Vec>,
                  dist: map<Vec, int>, counter0: int, open: seq<Entry>, counter: int)
    requires SearchInv(g, start, goal, open0, closed, dist, counter0)
    requires open0 != [] && open0[0].cell !in closed && open0[0].cell != goal
    requires EntriesSound(g, start, open, counter) && Scored(open, goal)
    requires forall x :: x in open0[1..] ==> x in open
    requires forall n :: n in Neighbors(g, open0[0].cell) && n !in closed + {open0[0].cell} ==>
      Reached(open, n, |open0[0].path|)
    ensures SearchInv(g, start, goal, open, closed + {open0[0].cell},
                      dist[open0[0].cell := |open0[0].path| - 1], counter)
  {
    assert open0[0] in open0;
    CloseKeepsOptimal(g, start, goal, open0, counter0, closed, dist);
    CloseKeepsFrontier(g, open0, open, closed, dist);
  }

  /** The open list ran out: no walk reaches the goal. */
  lemma ExhaustedStep(g: Grid, start: Vec, goal: Vec, closed: set<Vec>, dist: map<Vec, int>, counter: int)
    requires SearchInv(g, start, goal, [], closed, dist, counter)
    ensures !Reachable(g, start, goal)
  {
    NoPathWhenExhausted(g, start, goal, closed, dist);
  }

  /**
   * `a_star`: `None` when the start or the goal is a wall or the goal cannot
   * be reached; otherwise a shortest walk from the start to the goal.
   */
  method AStar(g: Grid, start: Vec, goal: Vec) returns (r: Option<seq<Vec>>)
    ensures r.Some? ==> IsPath(g, r.value, start, goal) && IsShortest(g, r.value, start, goal)
    ensures r.None? <==> !Free(g, start) || !Free(g, goal) || !Reachable(g, start, goal)
  {
    if IsWall(g, start.x, start.y) || IsWall(g, goal.x, goal.y) {
      return None;
    }
    var counter := 0;
    var open := [Entry(0, counter, start, [start])];
    var closed: set<Vec> := {};
    ghost var dist: map<Vec, int> := map[];
    SearchStarts(g, start, goal);
    while open != []
      invariant SearchInv(g, start, goal, open, closed, dist, counter)
      decreases |Cells(g) - closed|, |open|
    {
      ghost var open0 := open;
      var e := open[0];
      open := open[1..];
      if e.cell == goal {
        GoalStep(g, start, goal, open0, closed, dist, counter);
        return Some(e.path);
      }
      if e.cell in closed {
        SkipStep(g, start, goal, open0, closed, dist, counter);
        continue;
      }
      PopStep(g, start, goal, open0, closed, dist, counter);
      CloseShrinks(g, start, e, closed);
      ghost var closed0, dist0, counter0 := closed, dist, counter;
      closed := closed + {e.cell};
      dist := dist[e.cell := |e.path| - 1];
      var neighbors := GetNeighbors(g, e.cell);
      open, counter := PushNeighbors(g, start, goal, e.path, e.cell, neighbors, closed, open, counter);
      CloseStep(g, start, goal, open0, closed0, dist0, counter0, open, counter);
    }
    ExhaustedStep(g, start, goal, closed, dist, counter);
    return None;
  }

  // ---------------------------------------------------------------- get_next_direction

  /** A walk that is shortest stays shortest after its first step: the rest of it is a shortest walk. */
  lemma ShortestSuffix(g: Grid, p: seq<Vec>, s: Vec, t: Vec)
    requires IsPath(g, p, s, t) && IsShortest(g, p, s, t) && 1 < |p|
    ensures IsPath(g, p[1..], p[1], t) && IsShortest(g, p[1..], p[1], t)
  {
    forall q | IsPath(g, q, p[1], t) ensures |p[1..]| <= |q| {
      ManhattanSymmetric(s, p[1]);
      assert IsPath(g, [s] + q, s, t);
    }
  }

  /** Any walk shows its end reachable. */
  lemma WalkWitnessesReach(g: Grid, p: seq<Vec>, s: Vec, t: Vec)
    requires IsPath(g, p, s, t)
    ensures Reachable(g, s, t)
  {
  }

  lemma ShortestIsNoLonger(g: Grid, p: seq<Vec>, q: seq<Vec>, s: Vec, t: Vec)
    requires IsShortest(g, p, s, t) && IsPath(g, q, s, t)
    ensures |p| <= |q|
  {
  }

  /** The only shortest walk from a cell to itself is that cell alone. */
  lemma ShortestToSelf(g: Grid, p: seq<Vec>, s: Vec)
    requires Free(g, s) && IsPath(g, p, s, s) && IsShortest(g, p, s, s)
    ensures p == [s]
  {
    assert IsPath(g, [s], s, s);
  }

  /**
   * No move: a wall at either end, already at the target, or the target out of reach.
   */
  ghost predicate Stays(g: Grid, current: Vec, target: Vec) {
    !Free(g, current) || !Free(g, target) || current == target || !Reachable(g, current, target)
  }

  /**
   * `d` is an orthogonal unit step onto a free cell that begins a shortest
   * walk from `current` to `target`.
   */
  ghost predicate FirstStep(g: Grid, current: Vec, target: Vec, d: Vec) {
    && IsUnit(d) && Free(g, current.Add(d))
    && exists p :: IsPath(g, p, current, target) && IsShortest(g, p, current, target) && 1 < |p| && p[1] == current.Add(d)
  }

  /** After a first step the target is exactly one step nearer along shortest walks. */
  lemma FirstStepGetsNearer(g: Grid, current: Vec, target: Vec, d: Vec, p: seq<Vec>)
    requires FirstStep(g, current, target, d)
    requires IsPath(g, p, current, target) && IsShortest(g, p, current, target)
    ensures exists q :: IsPath(g, q, current.Add(d), target) && IsShortest(g, q, current.Add(d), target)
                        && |q| == |p| - 1
  {
    var w :| IsPath(g, w, current, target) && IsShortest(g, w, current, target) && 1 < |w| && w[1] == current.Add(d);
    ShortestSuffix(g, w, current, target);
    assert |w| == |p|;
  }

  /**
   * `get_next_direction`: the offset to the second cell of the A* path, or
   * (0, 0) when there is no further cell. A move is one orthogonal step onto
   * a free cell from which the target is one step nearer along a shortest walk.
   */
  method GetNextDirection(g: Grid, current: Vec, target: Vec) returns (d: Vec)
    ensures d == ZERO <==> Stays(g, current, target)
    ensures d != ZERO ==> FirstStep(g, current, target, d)
  {
    var path := AStar(g, current, target);
    if path.Some? && |path.value| > 1 {
      var next := path.value[1];
      d := Vec(next.x - current.x, next.y - current.y);
      assert IsPath(g, [current], current, current);
      assert current.Add(d) == next;
    } else {
      d := Vec(0, 0);
      if path.Some? {
        assert path.value == [current];
      }
    }
  }

  // ---------------------------------------------------------------- the test room

  /** A 10 x 10 room: walls on the border, free inside. */
  function Room(): (g: Grid)
    ensures |g| == 10 && forall r :: 0 <= r < 10 ==> |g[r]| == 10
  {
    seq(10, RoomRow)
  }

  /** Row `r` of the room: free between the side walls on rows 1 to 8. */
  function RoomRow(r: int): (row: seq<int>)
    ensures |row| == 10
  {
    seq(10, c => if 1 <= r <= 8 && 1 <= c <= 8 then 0 else 1)
  }

  /** In the room, the only walk of three cells or fewer from (1, 1) to (3, 1) goes straight along the row. */
  lemma RoomStraightRow(q: seq<Vec>)
    requires IsPath(Room(), q, Vec(1, 1), Vec(3, 1)) && |q| <= 3
    ensures q == [Vec(1, 1), Vec(2, 1), Vec(3, 1)]
  {
    HeuristicAdmissible(Room(), q, Vec(1, 1), Vec(3, 1));
    assert |q| == 3;
  }

  /** Three walks of the room's examples: along the top row, staying put, and off the grid. */
  lemma RoomRowWalk()
    ensures IsPath(Room(), [Vec(1, 1), Vec(2, 1), Vec(3, 1)], Vec(1, 1), Vec(3, 1))
  {
    var room := Room();
    assert room[1][1] == 0 && room[1][2] == 0 && room[1][3] == 0;
  }

  lemma RoomSelfWalk()
    ensures IsPath(Room(), [Vec(1, 1)], Vec(1, 1), Vec(1, 1))
  {
    assert Room()[1][1] == 0;
  }

  /** A* in the room from (1, 1) to (3, 1) returns the straight row. */
  method RoomRowSearch() returns (row: Option<seq<Vec>>)
    ensures row == Some([Vec(1, 1), Vec(2, 1), Vec(3, 1)])
  {
    var room, straight := Room(), [Vec(1, 1), Vec(2, 1), Vec(3, 1)];
    RoomRowWalk();
    WalkWitnessesReach(room, straight, Vec(1, 1), Vec(3, 1));
    row := AStar(room, Vec(1, 1), Vec(3, 1));
    ShortestIsNoLonger(room, row.value, straight, Vec(1, 1), Vec(3, 1));
    RoomStraightRow(row.value);
  }

  /** A* in the room from a cell to itself returns that cell alone. */
  method RoomSelfSearch() returns (self: Option<seq<Vec>>)
    ensures self == Some([Vec(1, 1)])
  {
    RoomSelfWalk();
    self := AStar(Room(), Vec(1, 1), Vec(1, 1));
    ShortestToSelf(Room(), self.value, Vec(1, 1));
  }

  /** A* towards a cell off the grid, or from one, returns nothing. */
  method RoomOffGridSearch() returns (toOutside: Option<seq<Vec>>, fromOutside: Option<seq<Vec>>)
    ensures toOutside == None && fromOutside == None
  {
    toOutside := AStar(Room(), Vec(1, 1), Vec(-5, -5));
    fromOutside := AStar(Room(), Vec(-1, -1), Vec(1, 1));
  }
}
