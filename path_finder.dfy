/**
 * The target path finder (`UnitTargetPathFinderImpl.getTargetPath`): a
 * breadth-first search over the 27 x 21 field with 8-neighbour moves, from
 * the attacker's cell to the target's cell, around the cells of the other
 * living units. The path is rebuilt from the search's parent pointers.
 */
module UnitTargetPathFinder {
  import opened Wrappers
  import opened Units
  import opened Sequences

  const Width: int := 27
  const Height: int := 21

  /** A field cell (the library's `Edge`). */
  datatype Edge = Edge(x: int, y: int)

  /** The 8 moves, in the order the search tries them. */
  const Directions: seq<(int, int)> :=
    [(-1, -1), (-1, 0), (-1, 1), (0, -1), (0, 1), (1, -1), (1, 0), (1, 1)]

  /** The cell one move `d` away from `c`. */
  function Step(c: Edge, d: nat): Edge
    requires d < 8
  {
    Edge(c.x + Directions[d].0, c.y + Directions[d].1)
  }

  predicate InBounds(c: Edge)
  {
    0 <= c.x < Width && 0 <= c.y < Height
  }

  /** Two distinct cells that touch, orthogonally or diagonally. */
  predicate Adjacent(a: Edge, b: Edge)
  {
    a != b && -1 <= a.x - b.x <= 1 && -1 <= a.y - b.y <= 1
  }

  /** The cells of the living units of the list other than the attacker and the target (compared by identity). */
  function ObstacleCells(attackUnit: Unit, targetUnit: Unit, existingUnitList: Option<seq<Unit>>): set<Edge>
  {
    if existingUnitList.None? then {}
    else set u | u in existingUnitList.value && u.id != attackUnit.id && u.id != targetUnit.id && u.alive :: Edge(u.x, u.y)
  }

  /** A cell a path may enter: on the field and not blocked. */
  predicate Open(c: Edge, obstacles: set<Edge>)
  {
    InBounds(c) && c !in obstacles
  }

  /** A sequence of 8-neighbour moves from `start` whose cells after the first are all open. */
  predicate IsWalk(p: seq<Edge>, start: Edge, obstacles: set<Edge>)
  {
    |p| >= 1 && p[0] == start &&
    forall i :: 0 < i < |p| ==> Open(p[i], obstacles) && Adjacent(p[i - 1], p[i])
  }

  /** A walk from `start` that ends at `end`. */
  predicate IsPath(p: seq<Edge>, start: Edge, end: Edge, obstacles: set<Edge>)
  {
    IsWalk(p, start, obstacles) && p[|p| - 1] == end
  }

  predicate Distinct(p: seq<Edge>)
  {
    forall i, j :: 0 <= i < j < |p| ==> p[i] != p[j]
  }

  /** Every move is an adjacent cell. */
  lemma StepIsAdjacent(c: Edge, d: nat)
    requires d < 8
    ensures Adjacent(c, Step(c, d))
  {
  }

  /** Every adjacent cell is one of the 8 moves. */
  lemma AdjacentIsStep(a: Edge, b: Edge) returns (d: nat)
    requires Adjacent(a, b)
    ensures d < 8 && b == Step(a, d)
  {
    var dx, dy := b.x - a.x, b.y - a.y;
    d := if dx == -1 then dy + 1 else if dx == 0 then (if dy == -1 then 3 else 4) else dy + 6;
  }

  // ---------------------------------------------------------------------
  // The search state
  // ---------------------------------------------------------------------

  /**
   * `parent` is a tree of moves rooted at `start`: every other cell in it is
   * open, and its parent is an adjacent cell one step closer to `start`
   * (`dist` counts the steps).
   */
  ghost predicate Tree(start: Edge, obstacles: set<Edge>, parent: map<Edge, Option<Edge>>, dist: map<Edge, nat>)
  {
    start in parent && parent[start] == None && dist.Keys == parent.Keys && dist[start] == 0 &&
    forall v :: v in parent && v != start ==>
      Open(v, obstacles) && parent[v].Some? && parent[v].value in parent &&
      Adjacent(parent[v].value, v) && dist[v] == dist[parent[v].value] + 1
  }

  /**
   * The cells discovered so far, in discovery order: `order` lists the keys
   * of `parent` once each, starting with `start`, by non-decreasing distance.
   */
  ghost predicate Discovered(start: Edge, obstacles: set<Edge>, parent: map<Edge, Option<Edge>>,
                             dist: map<Edge, nat>, order: seq<Edge>)
  {
    Tree(start, obstacles, parent, dist) &&
    |order| >= 1 && order[0] == start && Distinct(order) &&
    (forall v :: v in parent <==> v in order) &&
    (forall i, j :: 0 <= i <= j < |order| ==> dist[order[i]] <= dist[order[j]])
  }

  /** The first `n` moves from `c` have been tried: each open neighbour is discovered, at most one step further. */
  ghost predicate Expanded(obstacles: set<Edge>, parent: map<Edge, Option<Edge>>, dist: map<Edge, nat>, c: Edge, n: nat)
    requires c in dist && n <= 8 && dist.Keys == parent.Keys
  {
    forall d :: 0 <= d < n && Open(Step(c, d), obstacles) ==>
      Step(c, d) in parent && dist[Step(c, d)] <= dist[c] + 1
  }

  /** The first `k` discovered cells have been fully expanded. */
  ghost predicate Closed(start: Edge, obstacles: set<Edge>, parent: map<Edge, Option<Edge>>,
                         dist: map<Edge, nat>, order: seq<Edge>, k: nat)
    requires Discovered(start, obstacles, parent, dist, order) && k <= |order|
  {
    forall i :: 0 <= i < k ==> Expanded(obstacles, parent, dist, order[i], 8)
  }

  /** No discovered cell lies more than one step beyond `c`. */
  ghost predicate FrontierBound(dist: map<Edge, nat>, order: seq<Edge>, c: Edge)
    requires c in dist && forall i :: 0 <= i < |order| ==> order[i] in dist
  {
    forall j :: 0 <= j < |order| ==> dist[order[j]] <= dist[c] + 1
  }

  /** Adding `next` as a child of `curr` keeps the tree. */
  lemma TreeGrows(start: Edge, obstacles: set<Edge>, parent: map<Edge, Option<Edge>>, dist: map<Edge, nat>,
                  curr: Edge, next: Edge)
    requires Tree(start, obstacles, parent, dist)
    requires curr in parent && Adjacent(curr, next) && Open(next, obstacles) && next !in parent
    ensures Tree(start, obstacles, parent[next := Some(curr)], dist[next := dist[curr] + 1])
  {
    var parent', dist' := parent[next := Some(curr)], dist[next := dist[curr] + 1];
    forall v | v in parent' && v != start
      ensures Open(v, obstacles) && parent'[v].Some? && parent'[v].value in parent' &&
              Adjacent(parent'[v].value, v) && dist'[v] == dist'[parent'[v].value] + 1
    {
      if v != next {
        assert parent'[v] == parent[v] && dist'[v] == dist[v];
        assert dist'[parent[v].value] == dist[parent[v].value];
      }
    }
  }

  /** Appending a cell one step beyond `curr`, when none is further, keeps the discovery order. */
  lemma DiscoveredGrows(start: Edge, obstacles: set<Edge>, parent: map<Edge, Option<Edge>>, dist: map<Edge, nat>,
                        order: seq<Edge>, curr: Edge, next: Edge)
    requires Discovered(start, obstacles, parent, dist, order)
    requires curr in parent && Adjacent(curr, next) && Open(next, obstacles) && next !in parent
    requires FrontierBound(dist, order, curr)
    ensures var parent', dist', order' := parent[next := Some(curr)], dist[next := dist[curr] + 1], order + [next];
      Discovered(start, obstacles, parent', dist', order') && FrontierBound(dist', order', curr)
  {
    var parent', dist', order' := parent[next := Some(curr)], dist[next := dist[curr] + 1], order + [next];
    TreeGrows(start, obstacles, parent, dist, curr, next);
    assert forall i :: 0 <= i < |order| ==> order'[i] == order[i] && dist'[order[i]] == dist[order[i]];
  }

  /** Expansion facts survive the discovery of new cells. */
  lemma ExpandedStays(obstacles: set<Edge>, parent: map<Edge, Option<Edge>>, dist: map<Edge, nat>,
                      parent': map<Edge, Option<Edge>>, dist': map<Edge, nat>, c: Edge, n: nat)
    requires c in dist && n <= 8 && dist.Keys == parent.Keys && dist'.Keys == parent'.Keys
    requires parent.Keys <= parent'.Keys && forall v :: v in dist ==> dist'[v] == dist[v]
    requires Expanded(obstacles, parent, dist, c, n)
    ensures Expanded(obstacles, parent', dist', c, n)
  {
  }

  /** Trying move `n` from `c` extends the expansion by one move. */
  lemma ExpandedNext(obstacles: set<Edge>, parent: map<Edge, Option<Edge>>, dist: map<Edge, nat>, c: Edge, n: nat)
    requires c in dist && n < 8 && dist.Keys == parent.Keys
    requires Expanded(obstacles, parent, dist, c, n)
    requires Open(Step(c, n), obstacles) ==> Step(c, n) in parent && dist[Step(c, n)] <= dist[c] + 1
    ensures Expanded(obstacles, parent, dist, c, n + 1)
  {
  }

  /** Closedness survives the discovery of new cells. */
  lemma ClosedStays(start: Edge, obstacles: set<Edge>, parent: map<Edge, Option<Edge>>, dist: map<Edge, nat>, order: seq<Edge>,
                    parent': map<Edge, Option<Edge>>, dist': map<Edge, nat>, order': seq<Edge>, k: nat)
    requires Discovered(start, obstacles, parent, dist, order) && Discovered(start, obstacles, parent', dist', order')
    requires k <= |order| <= |order'| && order'[..|order|] == order
    requires parent.Keys <= parent'.Keys && forall v :: v in dist ==> dist'[v] == dist[v]
    requires Closed(start, obstacles, parent, dist, order, k)
    ensures Closed(start, obstacles, parent', dist', order', k)
  {
    forall i | 0 <= i < k ensures Expanded(obstacles, parent', dist', order'[i], 8) {
      assert order'[i] == order[i];
      ExpandedStays(obstacles, parent, dist, parent', dist', order[i], 8);
    }
  }

  /**
   * The state while the moves from `curr`, the cell `order[k]`, are tried:
   * the cells before it are expanded and its first `n` moves are tried.
   */
  ghost predicate Expanding(start: Edge, obstacles: set<Edge>, parent: map<Edge, Option<Edge>>, dist: map<Edge, nat>,
                            order: seq<Edge>, k: nat, curr: Edge, n: nat)
  {
    Discovered(start, obstacles, parent, dist, order) && k < |order| && order[k] == curr && n <= 8 &&
    Closed(start, obstacles, parent, dist, order, k) &&
    Expanded(obstacles, parent, dist, curr, n) && FrontierBound(dist, order, curr)
  }

  /** The state of the search loop before it takes `order[head]` off the queue (`end` was not among the cells taken off). */
  ghost predicate Searching(start: Edge, obstacles: set<Edge>, end: Edge, parent: map<Edge, Option<Edge>>,
                            dist: map<Edge, nat>, order: seq<Edge>, head: nat)
  {
    Discovered(start, obstacles, parent, dist, order) && head <= |order| &&
    Closed(start, obstacles, parent, dist, order, head) &&
    (head < |order| ==> FrontierBound(dist, order, order[head])) &&
    forall i :: 0 <= i < head ==> order[i] != end
  }

  /**
   * A move that leaves the field, hits an obstacle or reaches a discovered cell changes nothing.
   * The next move number `n'` (= n + 1) is passed in by the caller, already computed as a variable, so that the proof never has to equate two spellings of the same arithmetic term.
   */
  lemma SkipMove(start: Edge, obstacles: set<Edge>, parent: map<Edge, Option<Edge>>, dist: map<Edge, nat>,
                 order: seq<Edge>, k: nat, curr: Edge, n: nat, n': nat)
    requires Expanding(start, obstacles, parent, dist, order, k, curr, n) && n < 8 && n' == n + 1
    requires !Open(Step(curr, n), obstacles) || Step(curr, n) in parent
    ensures Expanding(start, obstacles, parent, dist, order, k, curr, n')
  {
    if Step(curr, n) in parent {
      var j :| 0 <= j < |order| && order[j] == Step(curr, n);
    }
    ExpandedNext(obstacles, parent, dist, curr, n);
  }

  /**
   * Discovering `next` by move `n` from `curr` keeps every search invariant and completes that move.
   * The next move number `n'` (= n + 1) is passed in by the caller, already computed as a variable, so that the proof never has to equate two spellings of the same arithmetic term.
   */
  lemma Discover(start: Edge, obstacles: set<Edge>, parent: map<Edge, Option<Edge>>, dist: map<Edge, nat>,
                 order: seq<Edge>, k: nat, curr: Edge, n: nat, n': nat, next: Edge,
                 parent': map<Edge, Option<Edge>>, dist': map<Edge, nat>, order': seq<Edge>)
    requires Expanding(start, obstacles, parent, dist, order, k, curr, n) && n < 8 && n' == n + 1 && next == Step(curr, n)
    requires Open(next, obstacles) && next !in parent
    requires parent' == parent[next := Some(curr)] && dist' == dist[next := dist[curr] + 1] && order' == order + [next]
    ensures Expanding(start, obstacles, parent', dist', order', k, curr, n')
  {
    StepIsAdjacent(curr, n);
    DiscoveredGrows(start, obstacles, parent, dist, order, curr, next);
    assert order'[..|order|] == order;
    ClosedStays(start, obstacles, parent, dist, order, parent', dist', order', k);
    ExpandedStays(obstacles, parent, dist, parent', dist', curr, n);
    ExpandedNext(obstacles, parent', dist', curr, n);
  }

  /** Taking `order[head]` off the queue starts its expansion. */
  lemma ExpansionStarts(start: Edge, obstacles: set<Edge>, end: Edge, parent: map<Edge, Option<Edge>>,
                        dist: map<Edge, nat>, order: seq<Edge>, head: nat)
    requires Searching(start, obstacles, end, parent, dist, order, head) && head < |order|
    ensures Expanding(start, obstacles, parent, dist, order, head, order[head], 0)
  {
  }

  /**
   * Once all 8 moves from `order[k]` are tried, and it is not `end`, the search loop's state holds for `k + 1`.
   * The new queue head `next` (= k + 1) is passed in by the caller, already computed as a variable, so that the proof never has to equate two spellings of the same arithmetic term.
   */
  lemma ExpansionDone(start: Edge, obstacles: set<Edge>, end: Edge, parent: map<Edge, Option<Edge>>, dist: map<Edge, nat>,
                      order: seq<Edge>, k: nat, next: nat, curr: Edge, discovered: seq<Edge>, added: seq<Edge>)
    requires Expanding(start, obstacles, parent, dist, order, k, curr, 8) && curr != end && next == k + 1
    requires order == discovered + added && k < |discovered|
    requires forall i :: 0 <= i < k ==> discovered[i] != end
    ensures Searching(start, obstacles, end, parent, dist, order, next)
  {
    assert forall i :: 0 <= i < |discovered| ==> order[i] == discovered[i];
    if k + 1 < |order| {
      assert dist[order[k]] <= dist[order[k + 1]];
    }
  }

  /** Appending to the discovery order appends to the queue. */
  lemma QueueGrows(order: seq<Edge>, queue: seq<Edge>, added: seq<Edge>, head: nat)
    requires head <= |order| && queue == order[head..]
    ensures queue + added == (order + added)[head..]
  {
  }

  /** Discovery order never repeats a cell, so it is no longer than the field plus the start cell. */
  lemma {:induction false} DistinctBound(s: seq<Edge>, u: set<Edge>)
    requires Distinct(s) && forall i :: 0 <= i < |s| ==> s[i] in u
    ensures |s| <= |u|
    decreases |s|
  {
    if s != [] {
      var x := s[|s| - 1];
      assert forall i :: 0 <= i < |s| - 1 ==> s[i] != x;
      DistinctBound(s[..|s| - 1], u - {x});
    }
  }

  ghost function Grid(): set<Edge>
  {
    set x, y | 0 <= x < Width && 0 <= y < Height :: Edge(x, y)
  }

  lemma DiscoveredBound(start: Edge, obstacles: set<Edge>, parent: map<Edge, Option<Edge>>,
                        dist: map<Edge, nat>, order: seq<Edge>)
    requires Discovered(start, obstacles, parent, dist, order)
    ensures |order| <= |Grid() + {start}|
  {
    forall i | 0 <= i < |order| ensures order[i] in Grid() + {start} {
      var c := order[i];
      assert c in parent;
      if c != start {
        assert Edge(c.x, c.y) == c;
      }
    }
    DistinctBound(order, Grid() + {start});
  }

  // ---------------------------------------------------------------------
  // Why breadth-first search finds shortest paths, and finds them all
  // ---------------------------------------------------------------------

  /**
   * While the cells before `order[h]` are fully expanded, any walk from
   * `start` that is shorter than the distance of `order[h]` ends at a
   * discovered cell, no further from `start` than the walk's length.
   */
  lemma {:induction false} ShortWalksAreDiscovered(start: Edge, obstacles: set<Edge>, parent: map<Edge, Option<Edge>>,
                                                   dist: map<Edge, nat>, order: seq<Edge>, h: nat, q: seq<Edge>)
    requires Discovered(start, obstacles, parent, dist, order)
    requires h < |order| && Closed(start, obstacles, parent, dist, order, h)
    requires IsWalk(q, start, obstacles)
    ensures |q| - 1 >= dist[order[h]] || (q[|q| - 1] in parent && dist[q[|q| - 1]] <= |q| - 1)
    decreases |q|
  {
    if |q| > 1 {
      var q' := q[..|q| - 1];
      assert IsWalk(q', start, obstacles) by {
        assert forall i :: 0 <= i < |q'| ==> q'[i] == q[i];
      }
      ShortWalksAreDiscovered(start, obstacles, parent, dist, order, h, q');
      var u, w := q[|q| - 2], q[|q| - 1];
      if |q| - 2 < dist[order[h]] {
        var iu :| 0 <= iu < |order| && order[iu] == u;
        assert iu < h;
        assert Expanded(obstacles, parent, dist, order[iu], 8);
        var d := AdjacentIsStep(u, w);
      }
    }
  }

  /** Once every discovered cell is expanded, every walk from `start` ends at a discovered cell. */
  lemma {:induction false} WalksAreDiscovered(start: Edge, obstacles: set<Edge>, parent: map<Edge, Option<Edge>>,
                                              dist: map<Edge, nat>, order: seq<Edge>, q: seq<Edge>)
    requires Discovered(start, obstacles, parent, dist, order)
    requires Closed(start, obstacles, parent, dist, order, |order|)
    ensures IsWalk(q, start, obstacles) ==> q[|q| - 1] in parent
    decreases |q|
  {
    if IsWalk(q, start, obstacles) && |q| > 1 {
      var q' := q[..|q| - 1];
      assert IsWalk(q', start, obstacles) by {
        assert forall i :: 0 <= i < |q'| ==> q'[i] == q[i];
      }
      WalksAreDiscovered(start, obstacles, parent, dist, order, q');
      var u, w := q[|q| - 2], q[|q| - 1];
      var iu :| 0 <= iu < |order| && order[iu] == u;
      assert Expanded(obstacles, parent, dist, order[iu], 8);
      var d := AdjacentIsStep(u, w);
    }
  }

  /** When `end` is taken off the queue, its distance is the length of a shortest path. */
  lemma FoundIsShortest(start: Edge, obstacles: set<Edge>, end: Edge, parent: map<Edge, Option<Edge>>,
                        dist: map<Edge, nat>, order: seq<Edge>, k: nat)
    requires Expanding(start, obstacles, parent, dist, order, k, end, 0)
    ensures forall q :: IsPath(q, start, end, obstacles) ==> dist[end] + 1 <= |q|
  {
    forall q | IsPath(q, start, end, obstacles) ensures dist[end] + 1 <= |q| {
      ShortWalksAreDiscovered(start, obstacles, parent, dist, order, k, q);
    }
  }

  /** When the queue runs empty before `end` is taken off it, no path to `end` exists. */
  lemma NotFoundIsUnreachable(start: Edge, obstacles: set<Edge>, end: Edge, parent: map<Edge, Option<Edge>>,
                              dist: map<Edge, nat>, order: seq<Edge>)
    requires Searching(start, obstacles, end, parent, dist, order, |order|)
    ensures forall q :: !IsPath(q, start, end, obstacles)
  {
    forall q ensures !IsPath(q, start, end, obstacles) {
      WalksAreDiscovered(start, obstacles, parent, dist, order, q);
    }
  }

  // ---------------------------------------------------------------------
  // The algorithm
  // ---------------------------------------------------------------------

  /** The obstacle set the search avoids, built unit by unit. */
  method BuildObstacles(attackUnit: Unit, targetUnit: Unit, existingUnitList: Option<seq<Unit>>)
      returns (obstacles: set<Edge>)
    ensures obstacles == ObstacleCells(attackUnit, targetUnit, existingUnitList)
  {
    obstacles := {};
    if existingUnitList.Some? {
      var units := existingUnitList.value;
      var i := 0;
      while i < |units|
        invariant 0 <= i <= |units|
        invariant obstacles == set u | u in units[..i] && u.id != attackUnit.id && u.id != targetUnit.id && u.alive :: Edge(u.x, u.y)
      {
        var unit := units[i];
        if unit.id != attackUnit.id && unit.id != targetUnit.id && unit.alive {
          obstacles := obstacles + {Edge(unit.x, unit.y)};
        }
        assert units[..i + 1] == units[..i] + [unit];
        i := i + 1;
      }
      assert units[..|units|] == units;
    }
  }

  /** `path` follows parent pointers forwards to `end`, one step of distance per cell. */
  ghost predicate ParentChain(parent: map<Edge, Option<Edge>>, dist: map<Edge, nat>, path: seq<Edge>, end: Edge)
  {
    path != [] && path[|path| - 1] == end && path[0] in dist &&
    (forall i :: 0 <= i < |path| ==> path[i] in parent && path[i] in dist && dist[path[i]] == dist[path[0]] + i) &&
    (forall i :: 0 < i < |path| ==> parent[path[i]] == Some(path[i - 1]))
  }

  /** Prepending the parent of the chain's first cell keeps it a chain. */
  lemma PrependParent(start: Edge, obstacles: set<Edge>, parent: map<Edge, Option<Edge>>, dist: map<Edge, nat>,
                      path: seq<Edge>, end: Edge, c: Edge)
    requires Tree(start, obstacles, parent, dist) && c in parent
    requires path == [] ==> c == end
    requires path != [] ==> ParentChain(parent, dist, path, end) && parent[path[0]] == Some(c)
    ensures ParentChain(parent, dist, [c] + path, end)
  {
    var path' := [c] + path;
    assert forall i :: 0 < i < |path'| ==> path'[i] == path[i - 1];
  }

  /** A chain that starts at `start` is a shortest-length, repetition-free path. */
  lemma ChainIsPath(start: Edge, obstacles: set<Edge>, parent: map<Edge, Option<Edge>>, dist: map<Edge, nat>,
                    path: seq<Edge>, end: Edge)
    requires Tree(start, obstacles, parent, dist) && ParentChain(parent, dist, path, end) && path[0] == start
    ensures IsPath(path, start, end, obstacles) && |path| == dist[end] + 1 && Distinct(path)
  {
    forall i | 0 < i < |path| ensures Open(path[i], obstacles) && Adjacent(path[i - 1], path[i]) {
      assert path[i] != start;
    }
  }

  /** Walks the parent pointers back from `end` to `start`, collecting the cells in path order. */
  method ReconstructPath(parent: map<Edge, Option<Edge>>, end: Edge,
                         ghost start: Edge, ghost obstacles: set<Edge>, ghost dist: map<Edge, nat>)
      returns (path: seq<Edge>)
    requires Tree(start, obstacles, parent, dist) && end in parent
    ensures IsPath(path, start, end, obstacles)
    ensures |path| == dist[end] + 1
    ensures Distinct(path)
  {
    path := [];
    var curr: Option<Edge> := Some(end);
    while curr.Some?
      invariant curr.Some? ==> curr.value in parent
      invariant path == [] ==> curr == Some(end)
      invariant path != [] ==> ParentChain(parent, dist, path, end) && parent[path[0]] == curr
      decreases if curr.Some? then dist[curr.value] + 1 else 0
    {
      var c := curr.value;
      PrependParent(start, obstacles, parent, dist, path, end, c);
      path := [c] + path;
      curr := parent[c];
    }
    ChainIsPath(start, obstacles, parent, dist, path, end);
  }

  /**
   * The shortest 8-neighbour path from the attacker's cell to the target's
   * cell that avoids the other living units, or the empty list when either
   * unit is null or no such path exists.
   */
  method GetTargetPath(attackUnit: Option<Unit>, targetUnit: Option<Unit>, existingUnitList: Option<seq<Unit>>)
      returns (path: seq<Edge>)
    ensures attackUnit.None? || targetUnit.None? ==> path == []
    ensures attackUnit.Some? && targetUnit.Some? ==>
      var start := Edge(attackUnit.value.x, attackUnit.value.y);
      var end := Edge(targetUnit.value.x, targetUnit.value.y);
      var obstacles := ObstacleCells(attackUnit.value, targetUnit.value, existingUnitList);
      (start == end ==> path == [start]) &&
      (path != [] ==> IsPath(path, start, end, obstacles) && Distinct(path)) &&
      (path != [] ==> forall q :: IsPath(q, start, end, obstacles) ==> |path| <= |q|) &&
      (path == [] <==> forall q :: !IsPath(q, start, end, obstacles))
  {
    if attackUnit.None? || targetUnit.None? {
      return [];
    }
    var startX, startY := attackUnit.value.x, attackUnit.value.y;
    var endX, endY := targetUnit.value.x, targetUnit.value.y;
    var start, end := Edge(startX, startY), Edge(endX, endY);
    if startX == endX && startY == endY {
      path := [start];
      assert IsPath(path, start, end, ObstacleCells(attackUnit.value, targetUnit.value, existingUnitList));
      return;
    }
    var obstacles := BuildObstacles(attackUnit.value, targetUnit.value, existingUnitList);

    var queue: seq<Edge> := [start];
    var parent: map<Edge, Option<Edge>> := map[start := None];
    ghost var dist: map<Edge, nat> := map[start := 0];
    ghost var order: seq<Edge> := [start];
    ghost var head: nat := 0;
    while queue != []
      invariant Searching(start, obstacles, end, parent, dist, order, head)
      invariant queue == order[head..]
      decreases |Grid() + {start}| - head
    {
      DiscoveredBound(start, obstacles, parent, dist, order);
      ghost var k := head;
      var curr := queue[0];
      queue := queue[1..];
      ExpansionStarts(start, obstacles, end, parent, dist, order, k);
      head := k + 1;
      if curr == end {
        FoundIsShortest(start, obstacles, end, parent, dist, order, k);
        path := ReconstructPath(parent, end, start, obstacles, dist);
        return;
      }
      ghost var discovered, pending := order, queue;
      ghost var added;
      queue, parent, dist, order, added := ExpandNeighbours(curr, obstacles, queue, parent, start, dist, order, k);
      QueueGrows(discovered, pending, added, head);
      ExpansionDone(start, obstacles, end, parent, dist, order, k, head, curr, discovered, added);
    }
    NotFoundIsUnreachable(start, obstacles, end, parent, dist, order);
    path := [];
  }

  /** `parent'` keeps every entry of `parent` and adds only open cells adjacent to `curr`, as its children. */
  predicate ChildrenAdded(obstacles: set<Edge>, parent: map<Edge, Option<Edge>>, parent': map<Edge, Option<Edge>>, curr: Edge)
  {
    (forall c :: c in parent ==> c in parent' && parent'[c] == parent[c]) &&
    (forall c :: c in parent' && c !in parent ==> parent'[c] == Some(curr) && Open(c, obstacles) && Adjacent(curr, c))
  }

  /** Recording `next` as a child of `curr` keeps `ChildrenAdded`. */
  lemma ChildAdded(obstacles: set<Edge>, parent: map<Edge, Option<Edge>>, parent0: map<Edge, Option<Edge>>,
                   parent': map<Edge, Option<Edge>>, curr: Edge, next: Edge)
    requires ChildrenAdded(obstacles, parent, parent0, curr)
    requires next !in parent0 && Open(next, obstacles) && Adjacent(curr, next)
    requires parent' == parent0[next := Some(curr)]
    ensures ChildrenAdded(obstacles, parent, parent', curr)
  {
  }

  /** The search's inner loop: tries the 8 moves from `curr` and queues every open, undiscovered neighbour. */
  method ExpandNeighbours(curr: Edge, obstacles: set<Edge>, queue: seq<Edge>, parent: map<Edge, Option<Edge>>,
                          ghost start: Edge, ghost dist: map<Edge, nat>, ghost order: seq<Edge>, ghost k: nat)
      returns (queue': seq<Edge>, parent': map<Edge, Option<Edge>>,
               ghost dist': map<Edge, nat>, ghost order': seq<Edge>, ghost added: seq<Edge>)
    requires Expanding(start, obstacles, parent, dist, order, k, curr, 0)
    ensures Expanding(start, obstacles, parent', dist', order', k, curr, 8)
    ensures order' == order + added && queue' == queue + added
    ensures forall d :: 0 <= d < 8 && Open(Step(curr, d), obstacles) ==> Step(curr, d) in parent'
    ensures ChildrenAdded(obstacles, parent, parent', curr)
  {
    queue', parent', dist', order', added := queue, parent, dist, order, [];
    var d := 0;
    while d < 8
      invariant 0 <= d <= 8
      invariant Expanding(start, obstacles, parent', dist', order', k, curr, d)
      invariant order' == order + added && queue' == queue + added
      invariant ChildrenAdded(obstacles, parent, parent', curr)
    {
      var d' := d + 1;
      ghost var step;
      queue', parent', dist', order', step := TryMove(curr, obstacles, d, d', queue', parent', start, dist', order', k, parent);
      AppendAssoc(order, added, step);
      AppendAssoc(queue, added, step);
      added := added + step;
      d := d';
    }
  }

  /**
   * One move of the inner loop: queues the neighbour in direction `d` when it is on the field, open and undiscovered.
   * The next direction `d'` (= d + 1) is passed in by the caller, already computed as a variable, so that the proof never has to equate two spellings of the same arithmetic term.
   */
  method TryMove(curr: Edge, obstacles: set<Edge>, d: nat, d': nat, queue: seq<Edge>, parent: map<Edge, Option<Edge>>,
                 ghost start: Edge, ghost dist: map<Edge, nat>, ghost order: seq<Edge>, ghost k: nat,
                 ghost initial: map<Edge, Option<Edge>>)
      returns (queue': seq<Edge>, parent': map<Edge, Option<Edge>>,
               ghost dist': map<Edge, nat>, ghost order': seq<Edge>, ghost added: seq<Edge>)
    requires d < 8 && d' == d + 1
    requires Expanding(start, obstacles, parent, dist, order, k, curr, d)
    requires ChildrenAdded(obstacles, initial, parent, curr)
    ensures Expanding(start, obstacles, parent', dist', order', k, curr, d')
    ensures order' == order + added && queue' == queue + added
    ensures ChildrenAdded(obstacles, initial, parent', curr)
    ensures !Open(Step(curr, d), obstacles) || Step(curr, d) in parent ==> queue' == queue && parent' == parent && added == []
    ensures Open(Step(curr, d), obstacles) && Step(curr, d) !in parent ==>
      parent' == parent[Step(curr, d) := Some(curr)] && queue' == queue + [Step(curr, d)] && added == [Step(curr, d)]
  {
    var next := Edge(curr.x + Directions[d].0, curr.y + Directions[d].1);
    assert next == Step(curr, d);
    if next.x < 0 || next.x >= Width || next.y < 0 || next.y >= Height {
      SkipMove(start, obstacles, parent, dist, order, k, curr, d, d');
      return queue, parent, dist, order, [];
    }
    if next in obstacles || next in parent {
      SkipMove(start, obstacles, parent, dist, order, k, curr, d, d');
      return queue, parent, dist, order, [];
    }
    parent' := parent[next := Some(curr)];
    dist' := dist[next := dist[curr] + 1];
    queue' := queue + [next];
    order' := order + [next];
    added := [next];
    Discover(start, obstacles, parent, dist, order, k, curr, d, d', next, parent', dist', order');
    StepIsAdjacent(curr, d);
    ChildAdded(obstacles, initial, parent, parent', curr, next);
  }
}
