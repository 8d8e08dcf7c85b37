/** Breadth-first shortest paths over the walkable cells of the map, as used by
    moveToPosition, proved against an explicit notion of walk. */
module Pathfinding {
  import opened Types
  import opened Geometry
  import opened WorldMap
  import opened Rules

  /** A cell the search may step on: walkable, and free of living enemies unless it
      is the target itself. */
  predicate Passable(g: Grid, es: seq<Enemy>, target: Position, c: Position) {
    IsValidPosition(g, c.x, c.y) && (c == target || !IsEnemyAtPosition(es, c))
  }

  /** The cell reached from `start` by following `path`. */
  function Follow(start: Position, path: seq<Direction>): Position
    decreases |path|
  {
    if |path| == 0 then start else Add(Follow(start, path[..|path| - 1]), path[|path| - 1])
  }

  /** Every step is a unit vector and every cell stepped on is passable. The start
      cell itself needs not be. */
  ghost predicate IsWalk(g: Grid, es: seq<Enemy>, target: Position, start: Position, path: seq<Direction>)
    decreases |path|
  {
    |path| == 0 ||
    (IsWalk(g, es, target, start, path[..|path| - 1]) && IsUnit(path[|path| - 1]) &&
     Passable(g, es, target, Follow(start, path)))
  }

  ghost predicate WalkTo(g: Grid, es: seq<Enemy>, start: Position, target: Position, path: seq<Direction>) {
    IsWalk(g, es, target, start, path) && Follow(start, path) == target
  }

  ghost predicate Reachable(g: Grid, es: seq<Enemy>, start: Position, target: Position) {
    exists path :: WalkTo(g, es, start, target, path)
  }

  /** A walk to the target no longer than any other. */
  ghost predicate Shortest(g: Grid, es: seq<Enemy>, start: Position, target: Position, path: seq<Direction>) {
    WalkTo(g, es, start, target, path) &&
    forall other :: WalkTo(g, es, start, target, other) ==> |path| <= |other|
  }

  lemma FollowSnoc(start: Position, path: seq<Direction>, d: Direction)
    ensures Follow(start, path + [d]) == Add(Follow(start, path), d)
  {
    assert (path + [d])[..|path|] == path;
  }

  lemma IsWalkSnoc(g: Grid, es: seq<Enemy>, target: Position, start: Position, path: seq<Direction>, d: Direction)
    requires IsWalk(g, es, target, start, path) && IsUnit(d)
    requires Passable(g, es, target, Add(Follow(start, path), d))
    ensures IsWalk(g, es, target, start, path + [d])
    ensures Follow(start, path + [d]) == Add(Follow(start, path), d)
  {
    FollowSnoc(start, path, d);
    assert (path + [d])[..|path|] == path;
  }

  /** No walk is shorter than the Manhattan distance it covers. */
  lemma {:induction false} WalkCoversManhattan(g: Grid, es: seq<Enemy>, target: Position, start: Position,
                                               path: seq<Direction>)
    requires IsWalk(g, es, target, start, path)
    ensures Abs(Follow(start, path).x - start.x) + Abs(Follow(start, path).y - start.y) <= |path|
    decreases |path|
  {
    if |path| > 0 {
      WalkCoversManhattan(g, es, target, start, path[..|path| - 1]);
    }
  }

  /** A queue entry: a cell and the walk that reached it. */
  datatype Node = Node(pos: Position, path: seq<Direction>)

  /** Every passable neighbour of an expanded cell has been discovered, at most one
      layer further out. */
  ghost predicate Closed(g: Grid, es: seq<Enemy>, target: Position, dist: map<Position, nat>, v: Position)
    requires v in dist
  {
    forall k :: 0 <= k < |Dirs| && Passable(g, es, target, Add(v, Dirs[k])) ==>
      Add(v, Dirs[k]) in dist && dist[Add(v, Dirs[k])] <= dist[v] + 1
  }

  /** Once every discovered cell nearer than L has been expanded, every walk of
      length at most L ends on a discovered cell, at distance at most its length. */
  lemma {:induction false} WalksStayDiscovered(g: Grid, es: seq<Enemy>, target: Position, start: Position,
                                               dist: map<Position, nat>, L: nat, path: seq<Direction>)
    requires start in dist && dist[start] == 0
    requires forall v :: v in dist && dist[v] < L ==> Closed(g, es, target, dist, v)
    requires IsWalk(g, es, target, start, path) && |path| <= L
    ensures Follow(start, path) in dist && dist[Follow(start, path)] <= |path|
    decreases |path|
  {
    if |path| > 0 {
      var prefix := path[..|path| - 1];
      WalksStayDiscovered(g, es, target, start, dist, L, prefix);
      var v := Follow(start, prefix);
      var k := DirIndex(path[|path| - 1]);
      assert Closed(g, es, target, dist, v);
      assert Add(v, Dirs[k]) == Follow(start, path);
    }
  }

  ghost predicate InQueue(q: seq<Node>, v: Position) {
    exists i :: 0 <= i < |q| && q[i].pos == v
  }

  /** Each queue entry carries a walk to its cell whose length is the cell's distance. */
  ghost predicate QueueOk(g: Grid, es: seq<Enemy>, target: Position, start: Position,
                          dist: map<Position, nat>, q: seq<Node>)
  {
    forall i :: 0 <= i < |q| ==>
      q[i].pos in dist && dist[q[i].pos] == |q[i].path| &&
      IsWalk(g, es, target, start, q[i].path) && Follow(start, q[i].path) == q[i].pos
  }

  /** Queue lengths are non-decreasing and span at most two consecutive layers. */
  ghost predicate Layered(q: seq<Node>) {
    forall i, j :: 0 <= i <= j < |q| ==> |q[i].path| <= |q[j].path| <= |q[i].path| + 1
  }

  ghost predicate ClosedOutsideQueue(g: Grid, es: seq<Enemy>, target: Position, dist: map<Position, nat>,
                                     q: seq<Node>, skip: Option<Position>)
  {
    forall v :: v in dist && !InQueue(q, v) && Some(v) != skip ==> Closed(g, es, target, dist, v)
  }

  /** All cells inside the map's width-by-height box; a superset of the walkable ones. */
  ghost function Box(g: Grid): set<Position> {
    set x, y | 0 <= x < Width(g) && 0 <= y < |g| :: Position(x, y)
  }

  /** Every walkable cell lies in the box. */
  lemma WalkableInBox(g: Grid, p: Position)
    requires IsValidPosition(g, p.x, p.y)
    ensures p in Box(g)
  {
    assert p == Position(p.x, p.y);
  }

  /** Visiting a cell of the box that was not visited shrinks the unvisited part. */
  lemma VisitShrinks(box: set<Position>, visited: set<Position>, p: Position)
    requires p in box && p !in visited
    ensures |box - (visited + {p})| == |box - visited| - 1
  {
    assert box - (visited + {p}) == (box - visited) - {p};
  }

  lemma ClosedGrows(g: Grid, es: seq<Enemy>, target: Position, dist: map<Position, nat>,
                    n: Position, dn: nat, v: Position)
    requires v in dist && n !in dist && Closed(g, es, target, dist, v)
    ensures Closed(g, es, target, dist[n := dn], v)
  {
  }

  /** The invariant of the outer search loop. */
  ghost predicate SearchInv(g: Grid, es: seq<Enemy>, target: Position, start: Position,
                            dist: map<Position, nat>, visited: set<Position>, q: seq<Node>)
  {
    start in dist && dist[start] == 0 && visited == dist.Keys && target !in visited &&
    QueueOk(g, es, target, start, dist, q) && Layered(q) &&
    (|q| > 0 ==> forall v :: v in dist ==> dist[v] <= |q[0].path| + 1) &&
    ClosedOutsideQueue(g, es, target, dist, q, None)
  }

  /** The invariant while the neighbours Dirs[..dk] of `current` have been examined. */
  ghost predicate ExpandInv(g: Grid, es: seq<Enemy>, target: Position, start: Position,
                            dist: map<Position, nat>, visited: set<Position>, q: seq<Node>,
                            current: Node, dk: nat)
  {
    var k := |current.path|;
    start in dist && dist[start] == 0 && visited == dist.Keys && target !in visited &&
    current.pos in dist && dist[current.pos] == k &&
    IsWalk(g, es, target, start, current.path) && Follow(start, current.path) == current.pos &&
    QueueOk(g, es, target, start, dist, q) &&
    (forall i :: 0 <= i < |q| ==> k <= |q[i].path| <= k + 1) &&
    (forall i, j :: 0 <= i <= j < |q| ==> |q[i].path| <= |q[j].path|) &&
    (forall v :: v in dist ==> dist[v] <= k + 1) &&
    ClosedOutsideQueue(g, es, target, dist, q, Some(current.pos)) &&
    (forall j :: 0 <= j < dk && j < |Dirs| && Passable(g, es, target, Add(current.pos, Dirs[j])) ==>
       Add(current.pos, Dirs[j]) in dist && dist[Add(current.pos, Dirs[j])] <= k + 1)
  }

  lemma StartSearch(g: Grid, es: seq<Enemy>, target: Position, start: Position)
    requires start != target
    ensures SearchInv(g, es, target, start, map[start := 0], {start}, [Node(start, [])])
  {
    var q := [Node(start, [])];
    assert InQueue(q, start) by { assert q[0].pos == start; }
  }

  lemma BeginExpand(g: Grid, es: seq<Enemy>, target: Position, start: Position,
                    dist: map<Position, nat>, visited: set<Position>, q: seq<Node>)
    requires |q| > 0 && SearchInv(g, es, target, start, dist, visited, q)
    ensures q[0].pos != target
    ensures ExpandInv(g, es, target, start, dist, visited, q[1..], q[0], 0)
  {
    var rest := q[1..];
    forall v | InQueue(q, v) && v != q[0].pos
      ensures InQueue(rest, v)
    {
      var i :| 0 <= i < |q| && q[i].pos == v;
      assert rest[i - 1].pos == v;
    }
    forall i | 0 <= i < |rest|
      ensures |q[0].path| <= |rest[i].path| <= |q[0].path| + 1
    {
      assert rest[i] == q[i + 1];
    }
  }

  /** A neighbour that is not taken leaves the examined prefix closed. */
  lemma SkipNeighbour(g: Grid, es: seq<Enemy>, target: Position, start: Position,
                      dist: map<Position, nat>, visited: set<Position>, q: seq<Node>,
                      current: Node, dk: nat)
    requires dk < |Dirs| && ExpandInv(g, es, target, start, dist, visited, q, current, dk)
    requires var n := Add(current.pos, Dirs[dk]);
             !(IsValidPosition(g, n.x, n.y) && !(n != target && IsEnemyAtPosition(es, n)) && n !in visited)
    ensures ExpandInv(g, es, target, start, dist, visited, q, current, dk + 1)
  {
  }

  lemma QueuePush(g: Grid, es: seq<Enemy>, target: Position, start: Position,
                  dist: map<Position, nat>, q: seq<Node>, current: Node, d: Direction)
    requires QueueOk(g, es, target, start, dist, q)
    requires IsWalk(g, es, target, start, current.path) && Follow(start, current.path) == current.pos
    requires var n := Add(current.pos, d); IsUnit(d) && Passable(g, es, target, n) && n !in dist
    ensures var n := Add(current.pos, d);
            QueueOk(g, es, target, start, dist[n := |current.path| + 1], q + [Node(n, current.path + [d])])
  {
    var n := Add(current.pos, d);
    var dist', q' := dist[n := |current.path| + 1], q + [Node(n, current.path + [d])];
    IsWalkSnoc(g, es, target, start, current.path, d);
    forall i | 0 <= i < |q'|
      ensures q'[i].pos in dist' && dist'[q'[i].pos] == |q'[i].path|
      ensures IsWalk(g, es, target, start, q'[i].path) && Follow(start, q'[i].path) == q'[i].pos
    {
      if i < |q| { assert q'[i] == q[i]; }
    }
  }

  lemma ClosurePush(g: Grid, es: seq<Enemy>, target: Position, dist: map<Position, nat>,
                    q: seq<Node>, skip: Option<Position>, node: Node, dn: nat)
    requires ClosedOutsideQueue(g, es, target, dist, q, skip) && node.pos !in dist
    ensures ClosedOutsideQueue(g, es, target, dist[node.pos := dn], q + [node], skip)
  {
    var n, dist', q' := node.pos, dist[node.pos := dn], q + [node];
    assert InQueue(q', n) by { assert q'[|q|].pos == n; }
    forall v | InQueue(q, v)
      ensures InQueue(q', v)
    {
      var i :| 0 <= i < |q| && q[i].pos == v;
      assert q'[i].pos == v;
    }
    forall v | v in dist' && !InQueue(q', v) && Some(v) != skip
      ensures Closed(g, es, target, dist', v)
    {
      ClosedGrows(g, es, target, dist, n, dn, v);
    }
  }

  /** A newly discovered neighbour other than the target is queued one layer out. */
  lemma DiscoverNeighbour(g: Grid, es: seq<Enemy>, target: Position, start: Position,
                          dist: map<Position, nat>, visited: set<Position>, q: seq<Node>,
                          current: Node, dk: nat)
    requires dk < |Dirs| && ExpandInv(g, es, target, start, dist, visited, q, current, dk)
    requires var n := Add(current.pos, Dirs[dk]);
             Passable(g, es, target, n) && n !in visited && n != target
    ensures var n := Add(current.pos, Dirs[dk]);
            ExpandInv(g, es, target, start, dist[n := |current.path| + 1], visited + {n},
                      q + [Node(n, current.path + [Dirs[dk]])], current, dk + 1)
  {
    var n, k := Add(current.pos, Dirs[dk]), |current.path|;
    var node := Node(n, current.path + [Dirs[dk]]);
    var dist', q' := dist[n := k + 1], q + [node];
    QueuePush(g, es, target, start, dist, q, current, Dirs[dk]);
    ClosurePush(g, es, target, dist, q, Some(current.pos), node, k + 1);
    LayersPush(q, node, k);
    forall j | 0 <= j < dk + 1 && j < |Dirs| && Passable(g, es, target, Add(current.pos, Dirs[j]))
      ensures Add(current.pos, Dirs[j]) in dist' && dist'[Add(current.pos, Dirs[j])] <= k + 1
    {
    }
    forall v | v in dist' ensures dist'[v] <= k + 1 {
    }
  }

  /** Appending a node one layer out keeps the queue within two sorted layers. */
  lemma LayersPush(q: seq<Node>, node: Node, k: nat)
    requires forall i :: 0 <= i < |q| ==> k <= |q[i].path| <= k + 1
    requires forall i, j :: 0 <= i <= j < |q| ==> |q[i].path| <= |q[j].path|
    requires |node.path| == k + 1
    ensures var q' := q + [node];
      (forall i :: 0 <= i < |q'| ==> k <= |q'[i].path| <= k + 1) &&
      (forall i, j :: 0 <= i <= j < |q'| ==> |q'[i].path| <= |q'[j].path|)
  {
    var q' := q + [node];
    forall i | 0 <= i < |q'| ensures k <= |q'[i].path| <= k + 1 {
      if i < |q| { assert q'[i] == q[i]; }
    }
  }

  /** After all four neighbours, the expanded cell is closed. */
  lemma FinishExpand(g: Grid, es: seq<Enemy>, target: Position, start: Position,
                     dist: map<Position, nat>, visited: set<Position>, q: seq<Node>, current: Node)
    requires ExpandInv(g, es, target, start, dist, visited, q, current, |Dirs|)
    ensures SearchInv(g, es, target, start, dist, visited, q)
  {
    assert Closed(g, es, target, dist, current.pos);
  }

  /** With the search front at layer k and the target not yet discovered, every walk
      to the target is longer than k. */
  lemma NoWalkWithin(g: Grid, es: seq<Enemy>, target: Position, start: Position,
                     dist: map<Position, nat>, visited: set<Position>, q: seq<Node>,
                     current: Node, dk: nat)
    requires ExpandInv(g, es, target, start, dist, visited, q, current, dk)
    ensures forall p :: WalkTo(g, es, start, target, p) ==> |current.path| < |p|
  {
    var k := |current.path|;
    forall v | v in dist && dist[v] < k
      ensures Closed(g, es, target, dist, v)
    {
    }
    forall p | WalkTo(g, es, start, target, p)
      ensures k < |p|
    {
      if |p| <= k {
        WalksStayDiscovered(g, es, target, start, dist, k, p);
      }
    }
  }

  /** Discovering the target from `current` completes a shortest walk. */
  lemma FoundTarget(g: Grid, es: seq<Enemy>, target: Position, start: Position,
                    dist: map<Position, nat>, visited: set<Position>, q: seq<Node>,
                    current: Node, dk: nat)
    requires dk < |Dirs| && ExpandInv(g, es, target, start, dist, visited, q, current, dk)
    requires Add(current.pos, Dirs[dk]) == target && IsValidPosition(g, target.x, target.y)
    ensures Shortest(g, es, start, target, current.path + [Dirs[dk]])
    ensures Reachable(g, es, start, target)
  {
    IsWalkSnoc(g, es, target, start, current.path, Dirs[dk]);
    NoWalkWithin(g, es, target, start, dist, visited, q, current, dk);
    assert WalkTo(g, es, start, target, current.path + [Dirs[dk]]);
  }

  /** An exhausted search has discovered every cell any walk can end on. */
  lemma Exhausted(g: Grid, es: seq<Enemy>, target: Position, start: Position,
                  dist: map<Position, nat>, visited: set<Position>)
    requires SearchInv(g, es, target, start, dist, visited, [])
    ensures !Reachable(g, es, start, target)
  {
    forall p | IsWalk(g, es, target, start, p)
      ensures Follow(start, p) != target
    {
      WalksStayDiscovered(g, es, target, start, dist, |p|, p);
    }
  }

  /** Only a walk from the target to itself can be empty; so a search that returns
      a shortest walk returns [] exactly when start and target coincide. */
  lemma EmptyWalkIffSameCell(g: Grid, es: seq<Enemy>, start: Position, target: Position, path: seq<Direction>)
    requires Shortest(g, es, start, target, path)
    ensures path == [] <==> start == target
  {
    if start == target {
      assert WalkTo(g, es, start, target, []);
    }
  }

  /** The inner loop of findPathBFS on the dequeued node `current`: look at its
      neighbours up, right, down, left; stop with a shortest walk when the target is
      among them, and otherwise queue every walkable, enemy-free, unvisited one. */
  method ExpandNeighbours(g: Grid, es: seq<Enemy>, start: Position, target: Position, current: Node,
                          queue: seq<Node>, visited: set<Position>, ghost dist: map<Position, nat>)
    returns (found: Option<seq<Direction>>, queue': seq<Node>, visited': set<Position>,
             ghost dist': map<Position, nat>)
    requires ExpandInv(g, es, target, start, dist, visited, queue, current, 0)
    ensures found.Some? ==> Shortest(g, es, start, target, found.value) && Reachable(g, es, start, target)
    ensures found.None? ==> SearchInv(g, es, target, start, dist', visited', queue')
    ensures found.None? ==>
              2 * |Box(g) - visited'| + |queue'| <= 2 * |Box(g) - visited| + |queue|
  {
    queue', visited', dist' := queue, visited, dist;
    ghost var box := Box(g);
    for dk := 0 to |Dirs|
      invariant ExpandInv(g, es, target, start, dist', visited', queue', current, dk)
      invariant 2 * |box - visited'| + |queue'| <= 2 * |box - visited| + |queue|
    {
      var dir := Dirs[dk];
      var next := Add(current.pos, dir);
      var isValid := IsValidPosition(g, next.x, next.y);
      var isTargetPosition := next == target;
      var hasEnemy := !isTargetPosition && IsEnemyAtPosition(es, next);
      var isVisited := next in visited';
      if isValid && !hasEnemy && !isVisited {
        if isTargetPosition {
          FoundTarget(g, es, target, start, dist', visited', queue', current, dk);
          return Some(current.path + [dir]), queue', visited', dist';
        }
        DiscoverNeighbour(g, es, target, start, dist', visited', queue', current, dk);
        WalkableInBox(g, next);
        VisitShrinks(box, visited', next);
        visited' := visited' + {next};
        dist' := dist'[next := |current.path| + 1];
        queue' := queue' + [Node(next, current.path + [dir])];
      } else {
        SkipNeighbour(g, es, target, start, dist', visited', queue', current, dk);
      }
    }
    FinishExpand(g, es, target, start, dist', visited', queue', current);
    found := None;
  }

  /** findPathBFS: breadth-first search from the start cell, exploring neighbours in
      the order up, right, down, left and stopping as soon as the target is discovered.
      It returns a shortest walk to the target, the empty path when start and target
      coincide, and None exactly when the target cannot be reached. */
  method FindPathBFS(g: Grid, es: seq<Enemy>, startX: int, startY: int, targetX: int, targetY: int)
    returns (r: Option<seq<Direction>>)
    ensures startX == targetX && startY == targetY ==> r == Some([])
    ensures r.Some? <==> Reachable(g, es, Position(startX, startY), Position(targetX, targetY))
    ensures r.Some? ==> Shortest(g, es, Position(startX, startY), Position(targetX, targetY), r.value)
  {
    var start, target := Position(startX, startY), Position(targetX, targetY);
    if start == target {
      assert WalkTo(g, es, start, target, []);
      return Some([]);
    }
    var queue: seq<Node> := [Node(start, [])];
    var visited: set<Position> := {start};
    ghost var dist: map<Position, nat> := map[start := 0];
    StartSearch(g, es, target, start);
    while |queue| > 0
      invariant SearchInv(g, es, target, start, dist, visited, queue)
      decreases 2 * |Box(g) - visited| + |queue|
    {
      BeginExpand(g, es, target, start, dist, visited, queue);
      var current := queue[0];
      queue := queue[1..];
      if current.pos == target {
        // the target is returned as soon as it is discovered, so it is never queued
        assert false;
      }
      var found;
      found, queue, visited, dist := ExpandNeighbours(g, es, start, target, current, queue, visited, dist);
      if found.Some? {
        return found;
      }
    }
    Exhausted(g, es, target, start, dist, visited);
    return None;
  }
}
