/**
 * The shortest path from an attacking unit to its target: breadth-first
 * search over the 27 x 21 grid with the eight king moves, where every alive
 * unit other than the two is an obstacle and the target's cell may always be
 * entered.
 */
module TargetPathFinder {
  import opened Wrappers
  import opened Units
  import opened Grid

  function CellOf(u: Unit): Coord {
    Coord(u.x, u.y)
  }

  /** Entry `o` of the unit list makes its cell an obstacle for this search. */
  predicate Blocks(o: Option<Unit>, attacker: Unit, target: Unit) {
    o.Some? && o.value.Alive() && o.value.id != attacker.id && o.value.id != target.id
    && InBounds(CellOf(o.value))
  }

  /** The obstacle cells. */
  ghost function Blocked(units: seq<Option<Unit>>, attacker: Unit, target: Unit): (r: set<Coord>)
    ensures forall c :: c in r ==> InBounds(c)
  {
    set i | 0 <= i < |units| && Blocks(units[i], attacker, target) :: CellOf(units[i].value)
  }

  /** A cell a path may step on: in bounds and free, or the goal itself. */
  ghost predicate Open(c: Coord, blocked: set<Coord>, goal: Coord) {
    InBounds(c) && (c !in blocked || c == goal)
  }

  /** A walk of king moves from `from` to `to` whose every cell after the
      first is open. */
  ghost predicate IsWalk(p: seq<Coord>, from: Coord, to: Coord, blocked: set<Coord>, goal: Coord) {
    && |p| >= 1 && p[0] == from && p[|p| - 1] == to && InBounds(from)
    && (forall i :: 0 < i < |p| ==> Open(p[i], blocked, goal))
    && (forall i :: 0 <= i < |p| - 1 ==> Adjacent(p[i], p[i + 1]))
  }

  /** A route from the attacker's cell to the target's cell. */
  ghost predicate IsRoute(p: seq<Coord>, start: Coord, goal: Coord, blocked: set<Coord>) {
    IsWalk(p, start, goal, blocked, goal)
  }

  // ---------------------------------------------------------------------------
  // The state of the search, as ghost values

  /** `c` was reached from its recorded predecessor in one open move, one
      level deeper. */
  ghost predicate Linked(c: Coord, start: Coord, goal: Coord, blocked: set<Coord>,
                         dist: map<Coord, nat>, parent: map<Coord, Coord>)
  {
    c in dist && c in parent && parent[c] in dist && Adjacent(parent[c], c)
    && dist[parent[c]] + 1 == dist[c] && Open(c, blocked, goal)
  }

  /** Every visited cell but the start hangs off the start through its predecessors. */
  ghost predicate Links(start: Coord, goal: Coord, blocked: set<Coord>,
                        dist: map<Coord, nat>, parent: map<Coord, Coord>)
  {
    && start in dist && dist[start] == 0 && InBounds(start)
    && (forall c {:trigger Linked(c, start, goal, blocked, dist, parent)} ::
          c in dist && c != start ==> Linked(c, start, goal, blocked, dist, parent))
  }

  /** Every open neighbour of `c` has been reached, at most one level deeper. */
  ghost predicate Expanded(c: Coord, goal: Coord, blocked: set<Coord>, dist: map<Coord, nat>)
    requires c in dist
  {
    forall n :: Adjacent(c, n) && Open(n, blocked, goal) ==> n in dist && dist[n] <= dist[c] + 1
  }

  /**
   * The invariant of breadth-first search. `order` lists the cells in the
   * order they were enqueued (each once), `order[..done]` have been dequeued
   * and expanded, `dist` is the level of each enqueued cell (non-decreasing
   * along `order`, spanning at most two levels in the queue), and `parent`
   * the cell it was reached from.
   */
  ghost predicate Bfs(start: Coord, goal: Coord, blocked: set<Coord>, order: seq<Coord>, done: nat,
                      dist: map<Coord, nat>, parent: map<Coord, Coord>)
  {
    && done <= |order|
    && Links(start, goal, blocked, dist, parent)
    && (forall c :: c in dist <==> c in order)
    && (forall c :: c in dist ==> InBounds(c))
    && (forall i, j :: 0 <= i < j < |order| ==> order[i] != order[j])
    && (forall i, j :: 0 <= i <= j < |order| ==> dist[order[i]] <= dist[order[j]])
    && (done < |order| ==> dist[order[|order| - 1]] <= dist[order[done]] + 1)
    && (forall i :: 0 <= i < done ==> order[i] != goal && Expanded(order[i], goal, blocked, dist))
  }

  /** Reaching a new cell keeps earlier expansions complete. */
  lemma ExpandedGrows(c: Coord, goal: Coord, blocked: set<Coord>, dist: map<Coord, nat>, n: Coord, d: nat)
    requires c in dist && n !in dist && Expanded(c, goal, blocked, dist)
    ensures Expanded(c, goal, blocked, dist[n := d])
  {
  }

  /** Linking a new open neighbour of a reached cell keeps every reached cell
      linked to the start. */
  lemma LinkKeepsLinks(start: Coord, goal: Coord, blocked: set<Coord>, dist: map<Coord, nat>,
                       parent: map<Coord, Coord>, cur: Coord, n: Coord)
    requires Links(start, goal, blocked, dist, parent) && cur in dist
    requires n !in dist && Open(n, blocked, goal) && Adjacent(cur, n)
    ensures Links(start, goal, blocked, dist[n := dist[cur] + 1], parent[n := cur])
  {
    var dist', parent' := dist[n := dist[cur] + 1], parent[n := cur];
    forall c | c in dist' && c != start ensures Linked(c, start, goal, blocked, dist', parent') {
      if c != n {
        assert Linked(c, start, goal, blocked, dist, parent);
      }
    }
  }

  /** Appending a cell one level below the queue's head keeps the levels
      non-decreasing along `order`. */
  lemma AppendKeepsLevels(order: seq<Coord>, dist: map<Coord, nat>, done: nat, n: Coord, d: nat)
    requires forall c :: c in order ==> c in dist
    requires forall i, j :: 0 <= i <= j < |order| ==> dist[order[i]] <= dist[order[j]]
    requires n !in dist && done < |order| && d == dist[order[done]] + 1
    requires dist[order[|order| - 1]] <= d
    ensures forall i, j :: 0 <= i <= j < |order + [n]| ==>
      dist[n := d][(order + [n])[i]] <= dist[n := d][(order + [n])[j]]
  {
    var order', dist' := order + [n], dist[n := d];
    forall i, j | 0 <= i <= j < |order'| ensures dist'[order'[i]] <= dist'[order'[j]] {
      if j < |order| {
        assert order'[i] == order[i] && order'[j] == order[j];
        assert dist[order[i]] <= dist[order[j]];
      } else if i < |order| {
        assert order'[i] == order[i] && order[i] in dist;
        assert dist[order[i]] <= dist[order[|order| - 1]];
      }
    }
  }

  /** Enqueueing an unvisited open neighbour of the cell being expanded keeps
      the search invariant. */
  lemma EnqueueKeepsBfs(start: Coord, goal: Coord, blocked: set<Coord>, order: seq<Coord>, done: nat,
                        dist: map<Coord, nat>, parent: map<Coord, Coord>, cur: Coord, n: Coord)
    requires Bfs(start, goal, blocked, order, done, dist, parent) && done < |order| && order[done] == cur
    requires n !in dist && Open(n, blocked, goal) && Adjacent(cur, n)
    requires dist[order[|order| - 1]] <= dist[cur] + 1
    ensures Bfs(start, goal, blocked, order + [n], done, dist[n := dist[cur] + 1], parent[n := cur])
  {
    var order', dist' := order + [n], dist[n := dist[cur] + 1];
    LinkKeepsLinks(start, goal, blocked, dist, parent, cur, n);
    AppendKeepsLevels(order, dist, done, n, dist[cur] + 1);
    forall i | 0 <= i < done ensures order'[i] != goal && Expanded(order'[i], goal, blocked, dist') {
      assert order'[i] == order[i];
      ExpandedGrows(order[i], goal, blocked, dist, n, dist[cur] + 1);
    }
  }

  /** The first `k` moves from `c` lead to reached cells at most one level deeper. */
  ghost predicate Tried(c: Coord, k: nat, blocked: set<Coord>, goal: Coord, dist: map<Coord, nat>)
    requires c in dist && k <= |Directions|
  {
    forall k' :: 0 <= k' < k && Open(Step(c, k'), blocked, goal) ==>
      Step(c, k') in dist && dist[Step(c, k')] <= dist[c] + 1
  }

  /** Move `k` from `c` reaches a new cell. */
  lemma TriedAfterEnqueue(c: Coord, k: nat, blocked: set<Coord>, goal: Coord, dist: map<Coord, nat>, n: Coord)
    requires c in dist && k < |Directions| && Tried(c, k, blocked, goal, dist)
    requires n == Step(c, k) && n !in dist
    ensures c in dist[n := dist[c] + 1] && Tried(c, k + 1, blocked, goal, dist[n := dist[c] + 1])
  {
  }

  /** Move `k` from `c` leads nowhere new. */
  lemma TriedAfterSkip(c: Coord, k: nat, blocked: set<Coord>, goal: Coord, dist: map<Coord, nat>)
    requires c in dist && k < |Directions| && Tried(c, k, blocked, goal, dist)
    requires Open(Step(c, k), blocked, goal) ==> Step(c, k) in dist && dist[Step(c, k)] <= dist[c] + 1
    ensures Tried(c, k + 1, blocked, goal, dist)
  {
  }

  /** The queue is the undequeued tail of the enqueue order. */
  lemma QueueSnoc(queue: seq<Coord>, order: seq<Coord>, done: nat, n: Coord)
    requires done < |order| && queue == order[done + 1..]
    ensures queue + [n] == (order + [n])[done + 1..]
  {
  }

  /** Before any move is tried. */
  lemma StartExpanding(start: Coord, goal: Coord, blocked: set<Coord>, order: seq<Coord>, done: nat,
                       dist: map<Coord, nat>, parent: map<Coord, Coord>)
    requires Bfs(start, goal, blocked, order, done, dist, parent) && done < |order| && order[done] != goal
    ensures Expanding(start, goal, blocked, order, done, dist, parent, order[done], 0)
  {
  }

  /** Enqueueing the `k`-th neighbour, a new open cell. */
  lemma EnqueueKeepsExpanding(start: Coord, goal: Coord, blocked: set<Coord>, order: seq<Coord>, done: nat,
                              dist: map<Coord, nat>, parent: map<Coord, Coord>, cur: Coord, k: nat, n: Coord)
    requires k < |Directions| && Expanding(start, goal, blocked, order, done, dist, parent, cur, k)
    requires n == Step(cur, k) && n !in dist && Open(n, blocked, goal)
    ensures Expanding(start, goal, blocked, order + [n], done, dist[n := dist[cur] + 1], parent[n := cur], cur, k + 1)
  {
    EnqueueKeepsBfs(start, goal, blocked, order, done, dist, parent, cur, n);
    TriedAfterEnqueue(cur, k, blocked, goal, dist, n);
  }

  /** Passing over the `k`-th neighbour, which is off the grid, blocked or
      already reached. */
  lemma SkipKeepsExpanding(start: Coord, goal: Coord, blocked: set<Coord>, order: seq<Coord>, done: nat,
                           dist: map<Coord, nat>, parent: map<Coord, Coord>, cur: Coord, k: nat)
    requires k < |Directions| && Expanding(start, goal, blocked, order, done, dist, parent, cur, k)
    requires Open(Step(cur, k), blocked, goal) ==> Step(cur, k) in dist && dist[Step(cur, k)] <= dist[cur] + 1
    ensures Expanding(start, goal, blocked, order, done, dist, parent, cur, k + 1)
  {
    TriedAfterSkip(cur, k, blocked, goal, dist);
  }

  /** Once all eight moves from the dequeued cell have been tried, it is expanded. */
  lemma FinishExpansion(start: Coord, goal: Coord, blocked: set<Coord>, order: seq<Coord>, done: nat,
                        dist: map<Coord, nat>, parent: map<Coord, Coord>, cur: Coord)
    requires Expanding(start, goal, blocked, order, done, dist, parent, cur, |Directions|)
    ensures Bfs(start, goal, blocked, order, done + 1, dist, parent)
  {
    forall n | Adjacent(cur, n) && Open(n, blocked, goal) ensures n in dist && dist[n] <= dist[cur] + 1 {
      var k := AdjacentIsStep(cur, n);
    }
    if done + 1 < |order| {
      assert dist[order[done]] <= dist[order[done + 1]];
    }
  }

  /** No reached cell lies deeper than the last one enqueued. */
  lemma WithinLastLevel(start: Coord, goal: Coord, blocked: set<Coord>, order: seq<Coord>, done: nat,
                        dist: map<Coord, nat>, parent: map<Coord, Coord>, c: Coord)
    requires Bfs(start, goal, blocked, order, done, dist, parent) && c in dist
    ensures dist[c] <= dist[order[|order| - 1]]
  {
    var i :| 0 <= i < |order| && order[i] == c;
  }

  /** Every reached cell is a cell of the grid. */
  lemma KeysInGrid(start: Coord, goal: Coord, blocked: set<Coord>, order: seq<Coord>, done: nat,
                   dist: map<Coord, nat>, parent: map<Coord, Coord>)
    requires Bfs(start, goal, blocked, order, done, dist, parent)
    ensures dist.Keys <= AllCells()
  {
  }

  /** Reaching more cells leaves fewer unreached ones. */
  lemma FewerUnvisited(before: set<Coord>, after: set<Coord>, all: set<Coord>)
    requires before < after && after <= all
    ensures all - after < all - before
  {
    var c :| c in after && c !in before;
    assert c in (all - before) - (all - after);
  }

  // ---------------------------------------------------------------------------
  // What the final search state says

  /** Along any walk from the start, each cell up to `limit` steps in has been
      reached within as many levels, provided every cell shallower than
      `limit` has been expanded. */
  lemma {:induction false} WalkIsCovered(start: Coord, goal: Coord, blocked: set<Coord>, order: seq<Coord>,
                                         done: nat, dist: map<Coord, nat>, parent: map<Coord, Coord>,
                                         q: seq<Coord>, to: Coord, limit: nat, j: nat)
    requires Bfs(start, goal, blocked, order, done, dist, parent)
    requires IsWalk(q, start, to, blocked, goal)
    requires forall c :: c in dist && dist[c] < limit ==> c in order[..done]
    requires j < |q| && j <= limit
    ensures q[j] in dist && dist[q[j]] <= j
  {
    if j > 0 {
      WalkIsCovered(start, goal, blocked, order, done, dist, parent, q, to, limit, j - 1);
      var c := q[j - 1];
      assert c in order[..done];
      var i :| 0 <= i < done && order[i] == c;
      assert Expanded(order[i], goal, blocked, dist);
      assert Adjacent(c, q[j]) && Open(q[j], blocked, goal);
    }
  }

  /** When the goal is dequeued, no route is shorter than its level. */
  lemma GoalLevelIsShortest(start: Coord, goal: Coord, blocked: set<Coord>, order: seq<Coord>, done: nat,
                            dist: map<Coord, nat>, parent: map<Coord, Coord>, q: seq<Coord>)
    requires Bfs(start, goal, blocked, order, done, dist, parent)
    requires done < |order| && order[done] == goal
    requires IsRoute(q, start, goal, blocked)
    ensures dist[goal] + 1 <= |q|
  {
    forall c | c in dist && dist[c] < dist[goal] ensures c in order[..done] {
      var i :| 0 <= i < |order| && order[i] == c;
    }
    if |q| - 1 < dist[goal] {
      WalkIsCovered(start, goal, blocked, order, done, dist, parent, q, goal, dist[goal], |q| - 1);
    }
  }

  /** When the queue runs dry without the goal, there is no route. */
  lemma ExhaustedMeansNoRoute(start: Coord, goal: Coord, blocked: set<Coord>, order: seq<Coord>,
                              dist: map<Coord, nat>, parent: map<Coord, Coord>, q: seq<Coord>)
    requires Bfs(start, goal, blocked, order, |order|, dist, parent)
    ensures !IsRoute(q, start, goal, blocked)
  {
    if IsRoute(q, start, goal, blocked) {
      forall c | c in dist ensures c in order[..|order|] {
        assert order[..|order|] == order;
      }
      WalkIsCovered(start, goal, blocked, order, |order|, dist, parent, q, goal, |q|, |q| - 1);
    }
  }

  /** The chain of predecessors from the start to `c`. */
  ghost function PathTo(c: Coord, start: Coord, goal: Coord, blocked: set<Coord>,
                        dist: map<Coord, nat>, parent: map<Coord, Coord>): seq<Coord>
    requires Links(start, goal, blocked, dist, parent) && c in dist
    decreases dist[c]
  {
    if c == start then [start]
    else
      assert Linked(c, start, goal, blocked, dist, parent);
      PathTo(parent[c], start, goal, blocked, dist, parent) + [c]
  }

  /** The predecessor chain is a walk from the start, one cell longer than the level. */
  lemma {:induction false} PathToIsWalk(c: Coord, start: Coord, goal: Coord, blocked: set<Coord>,
                                        dist: map<Coord, nat>, parent: map<Coord, Coord>)
    requires Links(start, goal, blocked, dist, parent) && c in dist
    ensures IsWalk(PathTo(c, start, goal, blocked, dist, parent), start, c, blocked, goal)
    ensures |PathTo(c, start, goal, blocked, dist, parent)| == dist[c] + 1
    decreases dist[c]
  {
    if c != start {
      assert Linked(c, start, goal, blocked, dist, parent);
      PathToIsWalk(parent[c], start, goal, blocked, dist, parent);
    }
  }

  /** The sequence in reverse (the library's Collections.reverse). */
  function Reversed(s: seq<Coord>): (r: seq<Coord>)
    ensures |r| == |s|
  {
    if s == [] then [] else [s[|s| - 1]] + Reversed(s[..|s| - 1])
  }

  /** Reversing after appending puts the appended cell first. */
  lemma ReversedSnoc(s: seq<Coord>, c: Coord)
    ensures Reversed(s + [c]) == [c] + Reversed(s)
  {
    assert (s + [c])[..|s|] == s;
  }

  // ---------------------------------------------------------------------------
  // The search itself, on arrays

  predicate IsGrid<T>(a: array2<T>) {
    a.Length0 == Width && a.Length1 == Height
  }

  /** The obstacle array marks exactly the obstacle cells. */
  ghost predicate MarksBlocked(obstacles: array2<bool>, blocked: set<Coord>)
    reads obstacles
    requires IsGrid(obstacles)
  {
    forall x, y :: 0 <= x < Width && 0 <= y < Height ==> (obstacles[x, y] <==> Coord(x, y) in blocked)
  }

  /** The visited array marks exactly the enqueued cells. */
  ghost predicate MarksVisited(visited: array2<bool>, dist: map<Coord, nat>)
    reads visited
    requires IsGrid(visited)
  {
    forall x, y :: 0 <= x < Width && 0 <= y < Height ==> (visited[x, y] <==> Coord(x, y) in dist)
  }

  /** The predecessor arrays hold the recorded predecessor of every reached cell. */
  ghost predicate RecordsParents(parentX: array2<int>, parentY: array2<int>, start: Coord,
                                 dist: map<Coord, nat>, parent: map<Coord, Coord>)
    reads parentX, parentY
    requires IsGrid(parentX) && IsGrid(parentY)
  {
    forall c :: c in dist && c != start && c in parent && InBounds(c) ==>
      parentX[c.x, c.y] == parent[c].x && parentY[c.x, c.y] == parent[c].y
  }

  /** The obstacle grid of `getTargetPath` (the `for` over `existingUnitList`):
      mark every alive unit other than the attacker and the target, when it
      stands on the grid. */
  method MarkObstacles(attackUnit: Unit, targetUnit: Unit, existingUnitList: seq<Option<Unit>>)
    returns (obstacles: array2<bool>)
    ensures fresh(obstacles) && IsGrid(obstacles)
    ensures MarksBlocked(obstacles, Blocked(existingUnitList, attackUnit, targetUnit))
  {
    obstacles := new bool[Width, Height]((x, y) => false);
    for i := 0 to |existingUnitList|
      invariant forall x, y :: 0 <= x < Width && 0 <= y < Height ==>
        (obstacles[x, y] <==> exists j :: 0 <= j < i && Blocks(existingUnitList[j], attackUnit, targetUnit)
                                          && CellOf(existingUnitList[j].value) == Coord(x, y))
    {
      var unit := existingUnitList[i];
      if unit.Some? && unit.value.Alive() && unit.value.id != attackUnit.id && unit.value.id != targetUnit.id {
        var x, y := unit.value.x, unit.value.y;
        if InBounds(Coord(x, y)) {
          obstacles[x, y] := true;
        }
      }
    }
    ghost var blocked := Blocked(existingUnitList, attackUnit, targetUnit);
    forall x, y | 0 <= x < Width && 0 <= y < Height
      ensures obstacles[x, y] <==> Coord(x, y) in blocked
    {
      if Coord(x, y) in blocked {
        var j :| 0 <= j < |existingUnitList| && Blocks(existingUnitList[j], attackUnit, targetUnit)
                 && CellOf(existingUnitList[j].value) == Coord(x, y);
      }
    }
  }

  /** The queue holding only the start cell is a valid search state. */
  lemma StartSearch(start: Coord, goal: Coord, blocked: set<Coord>)
    requires InBounds(start)
    ensures Bfs(start, goal, blocked, [start], 0, map[start := 0], map[])
  {
  }

  /**
   * The `while (!queue.isEmpty())` of `getTargetPath`: breadth-first search
   * from `start`, with `visited` set when a cell is enqueued, stopping when
   * `goal` is dequeued.
   * The ghost outputs are the final search state.
   */
  method Search(start: Coord, goal: Coord, obstacles: array2<bool>, ghost blocked: set<Coord>)
    returns (found: bool, parentX: array2<int>, parentY: array2<int>,
             ghost order: seq<Coord>, ghost done: nat, ghost dist: map<Coord, nat>,
             ghost parent: map<Coord, Coord>)
    requires InBounds(start) && InBounds(goal)
    requires IsGrid(obstacles) && MarksBlocked(obstacles, blocked)
    ensures fresh(parentX) && fresh(parentY) && IsGrid(parentX) && IsGrid(parentY)
    ensures Bfs(start, goal, blocked, order, done, dist, parent)
    ensures RecordsParents(parentX, parentY, start, dist, parent)
    ensures found ==> done < |order| && order[done] == goal
    ensures !found ==> done == |order|
  {
    parentX := new int[Width, Height]((x, y) => -1);
    parentY := new int[Width, Height]((x, y) => -1);
    var visited := new bool[Width, Height]((x, y) => false);
    var queue: seq<Coord> := [start];
    visited[start.x, start.y] := true;
    order, done, dist, parent := [start], 0, map[start := 0], map[];
    StartSearch(start, goal, blocked);
    found := false;
    while queue != []
      invariant IsGrid(visited) && IsGrid(parentX) && IsGrid(parentY)
      invariant Bfs(start, goal, blocked, order, done, dist, parent)
      invariant queue == order[done..]
      invariant MarksVisited(visited, dist)
      invariant RecordsParents(parentX, parentY, start, dist, parent)
      decreases AllCells() - dist.Keys, |queue|
    {
      ghost var unreached, queueLength := AllCells() - dist.Keys, |queue|;
      var current := queue[0];
      queue := queue[1..];
      var cx, cy := current.x, current.y;
      if cx == goal.x && cy == goal.y {
        found := true;
        break;
      }
      queue, order, dist, parent := Expand(current, goal, obstacles, visited, parentX, parentY, queue,
                                           start, blocked, order, done, dist, parent);
      done := done + 1;
      assert AllCells() - dist.Keys < unreached
             || (AllCells() - dist.Keys == unreached && |queue| < queueLength);
    }
  }

  /** The state while the moves from `current` (the cell at `done`) are being
      tried: the search invariant, the queue spanning at most two levels, and
      the first `k` moves accounted for. */
  ghost predicate Expanding(start: Coord, goal: Coord, blocked: set<Coord>, order: seq<Coord>, done: nat,
                            dist: map<Coord, nat>, parent: map<Coord, Coord>, current: Coord, k: nat)
  {
    && Bfs(start, goal, blocked, order, done, dist, parent)
    && done < |order| && order[done] == current && current != goal
    && dist[order[|order| - 1]] <= dist[current] + 1
    && k <= |Directions| && Tried(current, k, blocked, goal, dist)
  }

  /** The `for` over `DIRECTIONS` in `getTargetPath`: try the eight moves from the dequeued
      cell, enqueueing every unvisited open neighbour. */
  method Expand(current: Coord, goal: Coord, obstacles: array2<bool>, visited: array2<bool>,
                parentX: array2<int>, parentY: array2<int>, queue0: seq<Coord>,
                ghost start: Coord, ghost blocked: set<Coord>, ghost order0: seq<Coord>, ghost done: nat,
                ghost dist0: map<Coord, nat>, ghost parent0: map<Coord, Coord>)
    returns (queue: seq<Coord>, ghost order: seq<Coord>, ghost dist: map<Coord, nat>,
             ghost parent: map<Coord, Coord>)
    requires IsGrid(obstacles) && IsGrid(visited) && IsGrid(parentX) && IsGrid(parentY)
    requires obstacles != visited && parentX != parentY
    requires MarksBlocked(obstacles, blocked)
    requires Bfs(start, goal, blocked, order0, done, dist0, parent0)
    requires done < |order0| && order0[done] == current && current != goal
    requires queue0 == order0[done + 1..]
    requires MarksVisited(visited, dist0) && RecordsParents(parentX, parentY, start, dist0, parent0)
    modifies visited, parentX, parentY
    ensures Bfs(start, goal, blocked, order, done + 1, dist, parent)
    ensures queue == order[done + 1..]
    ensures MarksVisited(visited, dist) && RecordsParents(parentX, parentY, start, dist, parent)
    ensures AllCells() - dist.Keys < AllCells() - dist0.Keys || (order == order0 && dist == dist0 && queue == queue0)
  {
    queue, order, dist, parent := queue0, order0, dist0, parent0;
    StartExpanding(start, goal, blocked, order, done, dist, parent);
    for k := 0 to |Directions|
      invariant Expanding(start, goal, blocked, order, done, dist, parent, current, k)
      invariant queue == order[done + 1..]
      invariant MarksVisited(visited, dist)
      invariant RecordsParents(parentX, parentY, start, dist, parent)
      invariant (order == order0 && dist == dist0) || dist0.Keys < dist.Keys
    {
      queue, order, dist, parent := TryMove(k, current, goal, obstacles, visited, parentX, parentY, queue,
                                            start, blocked, order, done, dist, parent);
    }
    FinishExpansion(start, goal, blocked, order, done, dist, parent, current);
    if dist0.Keys < dist.Keys {
      KeysInGrid(start, goal, blocked, order, done + 1, dist, parent);
      FewerUnvisited(dist0.Keys, dist.Keys, AllCells());
    }
  }

  /** The body of the `for` over `DIRECTIONS` in `getTargetPath`: enqueue the `k`-th neighbour of
      `current` when it is on the grid, unvisited and free or the goal. */
  method TryMove(k: nat, current: Coord, goal: Coord, obstacles: array2<bool>, visited: array2<bool>,
                 parentX: array2<int>, parentY: array2<int>, queue0: seq<Coord>,
                 ghost start: Coord, ghost blocked: set<Coord>, ghost order0: seq<Coord>, ghost done: nat,
                 ghost dist0: map<Coord, nat>, ghost parent0: map<Coord, Coord>)
    returns (queue: seq<Coord>, ghost order: seq<Coord>, ghost dist: map<Coord, nat>,
             ghost parent: map<Coord, Coord>)
    requires IsGrid(obstacles) && IsGrid(visited) && IsGrid(parentX) && IsGrid(parentY)
    requires obstacles != visited && parentX != parentY
    requires MarksBlocked(obstacles, blocked)
    requires k < |Directions| && Expanding(start, goal, blocked, order0, done, dist0, parent0, current, k)
    requires queue0 == order0[done + 1..]
    requires MarksVisited(visited, dist0) && RecordsParents(parentX, parentY, start, dist0, parent0)
    modifies visited, parentX, parentY
    ensures Expanding(start, goal, blocked, order, done, dist, parent, current, k + 1)
    ensures queue == order[done + 1..]
    ensures MarksVisited(visited, dist) && RecordsParents(parentX, parentY, start, dist, parent)
    ensures (order == order0 && dist == dist0) || dist0.Keys < dist.Keys
    ensures var next := Step(current, k);
            if Open(next, blocked, goal) && next !in dist0 then
              && order == order0 + [next]
              && dist == dist0[next := dist0[current] + 1]
              && parent == parent0[next := current]
            else order == order0 && dist == dist0 && parent == parent0
  {
    var nx, ny := current.x + Directions[k].0, current.y + Directions[k].1;
    var next := Coord(nx, ny);
    assert next == Step(current, k);
    if InBounds(next) && !visited[nx, ny] && (!obstacles[nx, ny] || (nx == goal.x && ny == goal.y)) {
      EnqueueKeepsExpanding(start, goal, blocked, order0, done, dist0, parent0, current, k, next);
      Visit(visited, parentX, parentY, next, current, start, dist0, parent0, dist0[current] + 1);
      QueueSnoc(queue0, order0, done, next);
      queue := queue0 + [next];
      order, dist, parent := order0 + [next], dist0[next := dist0[current] + 1], parent0[next := current];
    } else {
      queue, order, dist, parent := queue0, order0, dist0, parent0;
      if Open(next, blocked, goal) {
        assert visited[nx, ny];
        WithinLastLevel(start, goal, blocked, order, done, dist, parent, next);
      }
      SkipKeepsExpanding(start, goal, blocked, order, done, dist, parent, current, k);
    }
  }

  /** The then-branch of the neighbour test in `getTargetPath`: mark a newly
      reached cell visited and record where it was reached from. */
  method Visit(visited: array2<bool>, parentX: array2<int>, parentY: array2<int>, next: Coord, from: Coord,
               ghost start: Coord, ghost dist: map<Coord, nat>, ghost parent: map<Coord, Coord>, ghost level: nat)
    requires IsGrid(visited) && IsGrid(parentX) && IsGrid(parentY)
    requires parentX != parentY
    requires InBounds(next) && next !in dist && next != start
    requires MarksVisited(visited, dist) && RecordsParents(parentX, parentY, start, dist, parent)
    modifies visited, parentX, parentY
    ensures MarksVisited(visited, dist[next := level])
    ensures RecordsParents(parentX, parentY, start, dist[next := level], parent[next := from])
  {
    visited[next.x, next.y] := true;
    parentX[next.x, next.y] := from.x;
    parentY[next.x, next.y] := from.y;
  }

  /** The path reconstruction of `getTargetPath`: follow the predecessor arrays back
      from the goal to the start, then reverse. */
  method TracePath(parentX: array2<int>, parentY: array2<int>, start: Coord, goal: Coord,
                   ghost blocked: set<Coord>, ghost dist: map<Coord, nat>, ghost parent: map<Coord, Coord>)
    returns (path: seq<Coord>)
    requires IsGrid(parentX) && IsGrid(parentY)
    requires Links(start, goal, blocked, dist, parent) && goal in dist
    requires RecordsParents(parentX, parentY, start, dist, parent)
    ensures path == PathTo(goal, start, goal, blocked, dist, parent)
  {
    var rev: seq<Coord> := [];
    var cx, cy := goal.x, goal.y;
    while cx != start.x || cy != start.y
      invariant Coord(cx, cy) in dist
      invariant PathTo(Coord(cx, cy), start, goal, blocked, dist, parent) + Reversed(rev)
                == PathTo(goal, start, goal, blocked, dist, parent)
      decreases dist[Coord(cx, cy)]
    {
      var c := Coord(cx, cy);
      assert Linked(c, start, goal, blocked, dist, parent);
      ReversedSnoc(rev, c);
      rev := rev + [c];
      var px := parentX[cx, cy];
      var py := parentY[cx, cy];
      cx, cy := px, py;
    }
    ReversedSnoc(rev, start);
    rev := rev + [start];
    path := Reversed(rev);
  }

  /** With an end point off the grid there is no route. */
  lemma NoRouteOffGrid(start: Coord, goal: Coord, blocked: set<Coord>, q: seq<Coord>)
    requires !InBounds(start) || !InBounds(goal)
    ensures !IsRoute(q, start, goal, blocked)
  {
  }

  /**
   * `getTargetPath`: the cells from the attacker's to the
   * target's, both included, of a shortest route of king moves over free
   * cells, or the empty list when there is none.
   */
  method GetTargetPath(attackUnit: Unit, targetUnit: Unit, existingUnitList: seq<Option<Unit>>)
    returns (path: seq<Coord>)
    ensures path != [] ==>
              IsRoute(path, CellOf(attackUnit), CellOf(targetUnit), Blocked(existingUnitList, attackUnit, targetUnit))
    ensures forall q :: IsRoute(q, CellOf(attackUnit), CellOf(targetUnit), Blocked(existingUnitList, attackUnit, targetUnit))
              ==> path != [] && |path| <= |q|
  {
    var start, goal := CellOf(attackUnit), CellOf(targetUnit);
    ghost var blocked := Blocked(existingUnitList, attackUnit, targetUnit);
    if !InBounds(start) || !InBounds(goal) {
      forall q { NoRouteOffGrid(start, goal, blocked, q); }
      return [];
    }
    var obstacles := MarkObstacles(attackUnit, targetUnit, existingUnitList);
    var found, parentX, parentY, order, done, dist, parent := Search(start, goal, obstacles, blocked);
    if !found {
      forall q { ExhaustedMeansNoRoute(start, goal, blocked, order, dist, parent, q); }
      return [];
    }
    path := TracePath(parentX, parentY, start, goal, blocked, dist, parent);
    PathToIsWalk(goal, start, goal, blocked, dist, parent);
    forall q | IsRoute(q, start, goal, blocked) ensures |path| <= |q| {
      GoalLevelIsShortest(start, goal, blocked, order, done, dist, parent, q);
    }
  }
}
