/**
 * PathFinder: breadth-first search between two cities (pathHelper and
 * buildPath) and the greedy tour over a player's cards
 * (findShortestPath and djikstrasAlgorithm).
 *
 * The search state the Java code keeps in a static visited map and in the
 * `prev` field of every city is local to one search here: a set of visited
 * cities and a map from a city to the city it was discovered from.
 */
module PathFinder {
  import opened Wrappers
  import opened Graph

  /** p read from its end to its start is a route: buildPath's order (destination first). */
  predicate IsBackRoute(g: Board, p: seq<nat>) {
    && |p| >= 1
    && (forall i :: 0 <= i < |p| ==> p[i] < |g|)
    && (forall i :: 0 <= i < |p| - 1 ==> Adjacent(g, p[i + 1], p[i]))
  }

  /** p is a back route from b to a with no more cities than any route from a to b. */
  ghost predicate IsShortestBackPath(g: Board, a: nat, b: nat, p: seq<nat>) {
    && IsBackRoute(g, p)
    && p[0] == b && p[|p| - 1] == a
    && forall q :: IsRoute(g, q) && q[0] == a && q[|q| - 1] == b ==> |p| <= |q|
  }

  lemma BackRouteReversed(g: Board, p: seq<nat>)
    requires IsBackRoute(g, p)
    ensures IsRoute(g, Reverse(p))
  {
    var r := Reverse(p);
    forall i | 0 <= i < |r| - 1
      ensures Adjacent(g, r[i], r[i + 1])
    {
      assert r[i] == p[|p| - 1 - i] && r[i + 1] == p[|p| - 2 - i];
    }
  }

  /** pathHelper finds a path exactly when the destination is reachable. */
  lemma ShortestBackPathReachable(g: Board, a: nat, b: nat, p: seq<nat>)
    requires IsShortestBackPath(g, a, b, p)
    ensures Reachable(g, a, b)
  {
    BackRouteReversed(g, p);
    assert Reverse(p)[0] == a && Reverse(p)[|p| - 1] == b;
  }

  // ---------------------------------------------------------------------
  // Invariants of the search.  `dist` is ghost: the number of edges from
  // the origin along the `prev` links.

  /** The predecessor links form a tree rooted at the origin, one edge per level. */
  ghost predicate PrevTree(g: Board, origin: nat, visited: set<nat>, prev: map<nat, nat>, dist: map<nat, nat>) {
    && visited == dist.Keys
    && origin in visited && dist[origin] == 0
    && origin !in prev
    && prev.Keys == visited - {origin}
    && (forall v :: v in visited ==> v < |g|)
    && (forall v :: v in prev ==> prev[v] in visited && dist[v] == dist[prev[v]] + 1 && Adjacent(g, prev[v], v))
  }

  /** The queue holds distinct visited cities, in non-decreasing distance, spanning at most one level. */
  ghost predicate QueueOrdered(queue: seq<nat>, visited: set<nat>, dist: map<nat, nat>) {
    && (forall i :: 0 <= i < |queue| ==> queue[i] in visited)
    && (forall i, j :: 0 <= i < j < |queue| ==> queue[i] != queue[j])
    && (forall i, j :: 0 <= i <= j < |queue| ==> queue[i] in dist && queue[j] in dist && dist[queue[i]] <= dist[queue[j]])
  }

  /** Every neighbour of city v is visited, at most one level below v. */
  ghost predicate Expanded(g: Board, v: nat, visited: set<nat>, dist: map<nat, nat>)
    requires v in dist && v < |g|
  {
    forall l :: l in g[v] && l.nbr.Some? ==> l.nbr.value in visited && l.nbr.value in dist && dist[l.nbr.value] <= dist[v] + 1
  }

  /** The visited cities that have left the queue have all been expanded. */
  ghost predicate Closed(g: Board, queue: seq<nat>, visited: set<nat>, dist: map<nat, nat>, except: nat)
    requires forall v :: v in visited ==> v in dist && v < |g|
  {
    forall v :: v in visited && v !in queue && v != except ==> Expanded(g, v, visited, dist)
  }

  /** The cities 0 .. n-1. */
  function Range(n: nat): (r: set<nat>)
    ensures forall v: nat :: v in r <==> v < n
    ensures |r| == n
  {
    if n == 0 then {} else Range(n - 1) + {n - 1}
  }

  lemma CardinalityBound(s: set<nat>, n: nat)
    requires forall v :: v in s ==> v < n
    ensures |s| <= n
  {
    SubsetCardinality(s, Range(n));
  }

  lemma {:induction false} SubsetCardinality(s: set<nat>, t: set<nat>)
    requires s <= t
    ensures |s| <= |t|
    decreases |s|
  {
    if s != {} {
      var x :| x in s;
      SubsetCardinality(s - {x}, t - {x});
    }
  }

  /**
   * The heart of breadth-first minimality: when every visited city below
   * `level` has been expanded, a route of at most `level` edges from the
   * origin ends in a visited city whose recorded distance is no larger.
   */
  lemma {:induction false} LevelReached(g: Board, origin: nat, queue: seq<nat>, visited: set<nat>,
                                        prev: map<nat, nat>, dist: map<nat, nat>, level: nat, q: seq<nat>)
    requires PrevTree(g, origin, visited, prev, dist)
    requires Closed(g, queue, visited, dist, |g|)
    requires forall v :: v in queue && v in dist ==> level <= dist[v]
    requires IsRoute(g, q) && q[0] == origin && |q| - 1 <= level
    ensures q[|q| - 1] in visited && dist[q[|q| - 1]] <= |q| - 1
  {
    if |q| > 1 {
      var q' := q[..|q| - 1];
      assert IsRoute(g, q');
      LevelReached(g, origin, queue, visited, prev, dist, level, q');
      var x, w := q'[|q'| - 1], q[|q| - 1];
      assert x !in queue;
      assert Adjacent(g, x, w);
      var l :| l in g[x] && l.nbr == Some(w);
      assert Expanded(g, x, visited, dist);
    }
  }

  /** The state of the search between two iterations of its outer loop. */
  ghost predicate Searching(g: Board, origin: nat, dest: nat, queue: seq<nat>, visited: set<nat>,
                            prev: map<nat, nat>, dist: map<nat, nat>, enqueued: seq<nat>)
  {
    && PrevTree(g, origin, visited, prev, dist)
    && QueueOrdered(queue, visited, dist)
    && (queue != [] ==> forall v :: v in visited ==> dist[v] <= dist[queue[0]] + 1)
    && (queue != [] ==> forall v :: v in visited && v !in queue ==> dist[v] <= dist[queue[0]])
    && Closed(g, queue, visited, dist, |g|)
    && (dest in visited ==> dest in queue)
    && (forall v :: v in visited <==> v in enqueued)
    && (forall i :: 0 <= i < |enqueued| ==> enqueued[i] in visited)
    && (forall i, j :: 0 <= i < j < |enqueued| ==> enqueued[i] != enqueued[j])
    && |visited| <= |g|
  }

  /**
   * The state while the edges of `cursor` (removed from the queue, at
   * distance `level`) are scanned: the first k of them have been handled.
   */
  ghost predicate Scanning(g: Board, origin: nat, dest: nat, cursor: nat, level: nat, k: nat,
                           queue: seq<nat>, visited: set<nat>, prev: map<nat, nat>, dist: map<nat, nat>,
                           enqueued: seq<nat>)
  {
    && PrevTree(g, origin, visited, prev, dist)
    && QueueOrdered(queue, visited, dist)
    && cursor in visited && dist[cursor] == level && cursor !in queue && cursor != dest
    && k <= |g[cursor]|
    && (forall i :: 0 <= i < |queue| ==> level <= dist[queue[i]] <= level + 1)
    && (forall v :: v in visited ==> dist[v] <= level + 1)
    && (forall v :: v in visited && v !in queue ==> dist[v] <= level)
    && Closed(g, queue, visited, dist, cursor)
    && (forall j :: 0 <= j < k && g[cursor][j].nbr.Some? ==>
          g[cursor][j].nbr.value in visited && dist[g[cursor][j].nbr.value] <= level + 1)
    && (dest in visited ==> dest in queue)
    && (forall v :: v in visited <==> v in enqueued)
    && (forall i :: 0 <= i < |enqueued| ==> enqueued[i] in visited)
    && (forall i, j :: 0 <= i < j < |enqueued| ==> enqueued[i] != enqueued[j])
    && |visited| <= |g|
  }

  lemma StartScan(g: Board, origin: nat, dest: nat, queue: seq<nat>, visited: set<nat>,
                  prev: map<nat, nat>, dist: map<nat, nat>, enqueued: seq<nat>)
    requires Searching(g, origin, dest, queue, visited, prev, dist, enqueued)
    requires queue != [] && queue[0] != dest
    ensures Scanning(g, origin, dest, queue[0], dist[queue[0]], 0, queue[1..], visited, prev, dist, enqueued)
  {
    var cursor, rest := queue[0], queue[1..];
    forall i | 0 <= i < |rest|
      ensures dist[cursor] <= dist[rest[i]]
    {
      assert rest[i] == queue[i + 1];
    }
    forall v | v in visited && v !in rest && v != cursor
      ensures Expanded(g, v, visited, dist)
    {
      assert v !in queue;
    }
  }

  /** Handling one edge: a new neighbour is discovered, anything else is skipped. */
  lemma ScanStep(g: Board, origin: nat, dest: nat, cursor: nat, level: nat, k: nat,
                 queue: seq<nat>, visited: set<nat>, prev: map<nat, nat>, dist: map<nat, nat>,
                 enqueued: seq<nat>)
    requires WellFormed(g)
    requires Scanning(g, origin, dest, cursor, level, k, queue, visited, prev, dist, enqueued)
    requires k < |g[cursor]|
    ensures var n := g[cursor][k].nbr;
      if n.Some? && n.value !in visited then
        Scanning(g, origin, dest, cursor, level, k + 1, queue + [n.value], visited + {n.value},
                 prev[n.value := cursor], dist[n.value := level + 1], enqueued + [n.value])
      else
        Scanning(g, origin, dest, cursor, level, k + 1, queue, visited, prev, dist, enqueued)
  {
    var n := g[cursor][k].nbr;
    assert g[cursor][k] in g[cursor];
    if n.Some? && n.value !in visited {
      Discover(g, origin, dest, cursor, level, k, queue, visited, prev, dist, enqueued, n.value);
    }
  }

  lemma Discover(g: Board, origin: nat, dest: nat, cursor: nat, level: nat, k: nat,
                 queue: seq<nat>, visited: set<nat>, prev: map<nat, nat>, dist: map<nat, nat>,
                 enqueued: seq<nat>, w: nat)
    requires Scanning(g, origin, dest, cursor, level, k, queue, visited, prev, dist, enqueued)
    requires k < |g[cursor]| && g[cursor][k].nbr == Some(w) && w !in visited && w < |g|
    ensures Scanning(g, origin, dest, cursor, level, k + 1, queue + [w], visited + {w},
                     prev[w := cursor], dist[w := level + 1], enqueued + [w])
  {
    assert g[cursor][k] in g[cursor];
    assert Adjacent(g, cursor, w);
    var q', s', p', d', e' := queue + [w], visited + {w}, prev[w := cursor], dist[w := level + 1], enqueued + [w];
    DiscoverKeepsTree(g, origin, visited, prev, dist, cursor, level, w);
    DiscoverKeepsQueue(queue, visited, dist, level, w);
    DiscoverKeepsClosed(g, queue, visited, dist, cursor, level, w);
    DiscoverKeepsLevels(queue, visited, dist, level, w);
    DiscoverKeepsEnqueued(visited, enqueued, w, |g|);
    DiscoverKeepsScanned(g[cursor], visited, dist, level, k, w);
    assert cursor != w && cursor in s' && d'[cursor] == level && cursor !in q';
  }

  lemma DiscoverKeepsScanned(links: seq<Link>, visited: set<nat>, dist: map<nat, nat>, level: nat, k: nat, w: nat)
    requires k < |links| && links[k].nbr == Some(w)
    requires forall j :: 0 <= j < k && links[j].nbr.Some? ==>
               links[j].nbr.value in visited && links[j].nbr.value in dist && dist[links[j].nbr.value] <= level + 1
    ensures forall j :: 0 <= j < k + 1 && links[j].nbr.Some? ==>
              links[j].nbr.value in visited + {w} && dist[w := level + 1][links[j].nbr.value] <= level + 1
  {
  }

  lemma DiscoverKeepsLevels(queue: seq<nat>, visited: set<nat>, dist: map<nat, nat>, level: nat, w: nat)
    requires forall i :: 0 <= i < |queue| ==> queue[i] in dist && level <= dist[queue[i]] <= level + 1
    requires forall v :: v in visited ==> v in dist && dist[v] <= level + 1
    requires forall v :: v in visited && v !in queue ==> dist[v] <= level
    requires w !in visited
    ensures var q', s', d' := queue + [w], visited + {w}, dist[w := level + 1];
      && (forall i :: 0 <= i < |q'| ==> level <= d'[q'[i]] <= level + 1)
      && (forall v :: v in s' ==> d'[v] <= level + 1)
      && (forall v :: v in s' && v !in q' ==> d'[v] <= level)
  {
    var q', d' := queue + [w], dist[w := level + 1];
    forall i | 0 <= i < |q'|
      ensures level <= d'[q'[i]] <= level + 1
    {
      if i < |queue| {
        assert q'[i] == queue[i];
      }
    }
  }

  lemma DiscoverKeepsEnqueued(visited: set<nat>, enqueued: seq<nat>, w: nat, n: nat)
    requires forall v :: v in visited <==> v in enqueued
    requires forall i :: 0 <= i < |enqueued| ==> enqueued[i] in visited
    requires forall i, j :: 0 <= i < j < |enqueued| ==> enqueued[i] != enqueued[j]
    requires forall v :: v in visited ==> v < n
    requires w !in visited && w < n
    ensures var s', e' := visited + {w}, enqueued + [w];
      && (forall v :: v in s' <==> v in e')
      && (forall i :: 0 <= i < |e'| ==> e'[i] in s')
      && (forall i, j :: 0 <= i < j < |e'| ==> e'[i] != e'[j])
      && |s'| <= n
  {
    var s', e' := visited + {w}, enqueued + [w];
    forall i | 0 <= i < |e'|
      ensures e'[i] in s'
    {
      if i < |enqueued| {
        assert e'[i] == enqueued[i];
      }
    }
    CardinalityBound(s', n);
  }

  lemma DiscoverKeepsTree(g: Board, origin: nat, visited: set<nat>, prev: map<nat, nat>, dist: map<nat, nat>,
                          cursor: nat, level: nat, w: nat)
    requires PrevTree(g, origin, visited, prev, dist)
    requires cursor in visited && cursor in dist && dist[cursor] == level
    requires w !in visited && w < |g| && Adjacent(g, cursor, w)
    ensures PrevTree(g, origin, visited + {w}, prev[w := cursor], dist[w := level + 1])
  {
  }

  lemma DiscoverKeepsQueue(queue: seq<nat>, visited: set<nat>, dist: map<nat, nat>, level: nat, w: nat)
    requires QueueOrdered(queue, visited, dist) && w !in visited
    requires forall i :: 0 <= i < |queue| ==> dist[queue[i]] <= level + 1
    ensures QueueOrdered(queue + [w], visited + {w}, dist[w := level + 1])
  {
    var q', d' := queue + [w], dist[w := level + 1];
    forall i, j | 0 <= i <= j < |q'|
      ensures q'[i] in d' && q'[j] in d' && d'[q'[i]] <= d'[q'[j]]
    {
      if j < |queue| {
        assert q'[i] == queue[i] && q'[j] == queue[j];
      }
    }
  }

  lemma DiscoverKeepsClosed(g: Board, queue: seq<nat>, visited: set<nat>, dist: map<nat, nat>, cursor: nat,
                            level: nat, w: nat)
    requires forall v :: v in visited ==> v in dist && v < |g|
    requires Closed(g, queue, visited, dist, cursor)
    requires w !in visited && w < |g| && cursor in dist && dist[cursor] == level
    ensures forall v :: v in visited + {w} ==> v in dist[w := level + 1] && v < |g|
    ensures Closed(g, queue + [w], visited + {w}, dist[w := level + 1], cursor)
  {
    var q', s', d' := queue + [w], visited + {w}, dist[w := level + 1];
    forall v | v in s' && v !in q' && v != cursor
      ensures Expanded(g, v, s', d')
    {
      assert v in visited && v !in queue;
      assert Expanded(g, v, visited, dist);
    }
  }

  lemma FinishScan(g: Board, origin: nat, dest: nat, cursor: nat, level: nat,
                   queue: seq<nat>, visited: set<nat>, prev: map<nat, nat>, dist: map<nat, nat>,
                   enqueued: seq<nat>)
    requires cursor < |g| && Scanning(g, origin, dest, cursor, level, |g[cursor]|, queue, visited, prev, dist, enqueued)
    ensures Searching(g, origin, dest, queue, visited, prev, dist, enqueued)
  {
    forall l | l in g[cursor] && l.nbr.Some?
      ensures l.nbr.value in visited && dist[l.nbr.value] <= dist[cursor] + 1
    {
      var j :| 0 <= j < |g[cursor]| && g[cursor][j] == l;
    }
    assert Expanded(g, cursor, visited, dist);
    if queue != [] {
      assert level <= dist[queue[0]];
    }
  }

  /**
   * buildPath: follows the predecessor links from dest back to the origin,
   * giving the path destination first.
   */
  method BuildPath(prev: map<nat, nat>, dest: nat, ghost g: Board, ghost origin: nat,
                   ghost visited: set<nat>, ghost dist: map<nat, nat>) returns (p: seq<nat>)
    requires PrevTree(g, origin, visited, prev, dist) && dest in visited
    ensures IsBackRoute(g, p)
    ensures p[0] == dest && p[|p| - 1] == origin
    ensures |p| == dist[dest] + 1
  {
    p := [];
    var cursor: Option<nat> := Some(dest);
    while cursor.Some?
      invariant cursor.Some? ==> cursor.value in visited && |p| + dist[cursor.value] == dist[dest]
      invariant cursor.Some? && p != [] ==> Adjacent(g, cursor.value, p[|p| - 1])
      invariant cursor.None? ==> |p| == dist[dest] + 1 && p[|p| - 1] == origin
      invariant p == [] ==> cursor == Some(dest)
      invariant p != [] ==> p[0] == dest
      invariant forall i :: 0 <= i < |p| ==> p[i] < |g|
      invariant forall i :: 0 <= i < |p| - 1 ==> Adjacent(g, p[i + 1], p[i])
      decreases if cursor.Some? then dist[cursor.value] + 1 else 0
    {
      var c := cursor.value;
      p := p + [c];
      cursor := if c in prev then Some(prev[c]) else None;
    }
  }

  /** When dest reaches the head of the queue, the rebuilt path is a shortest one. */
  lemma FoundIsShortest(g: Board, origin: nat, dest: nat, queue: seq<nat>, visited: set<nat>,
                        prev: map<nat, nat>, dist: map<nat, nat>, enqueued: seq<nat>, path: seq<nat>)
    requires Searching(g, origin, dest, queue, visited, prev, dist, enqueued)
    requires queue != [] && queue[0] == dest
    requires IsBackRoute(g, path) && path[0] == dest && path[|path| - 1] == origin && |path| == dist[dest] + 1
    ensures IsShortestBackPath(g, origin, dest, path)
  {
    forall q | IsRoute(g, q) && q[0] == origin && q[|q| - 1] == dest
      ensures |path| <= |q|
    {
      if |q| - 1 < dist[dest] {
        LevelReached(g, origin, queue, visited, prev, dist, dist[dest], q);
      }
    }
  }

  /** When the queue runs empty without meeting dest, dest cannot be reached. */
  lemma ExhaustedUnreachable(g: Board, origin: nat, dest: nat, visited: set<nat>,
                             prev: map<nat, nat>, dist: map<nat, nat>, enqueued: seq<nat>)
    requires Searching(g, origin, dest, [], visited, prev, dist, enqueued)
    ensures !Reachable(g, origin, dest)
  {
    forall q | IsRoute(g, q) && q[0] == origin
      ensures q[|q| - 1] != dest
    {
      LevelReached(g, origin, [], visited, prev, dist, |q|, q);
    }
  }

  /**
   * The inner loop of pathHelper: every resolved neighbour of cursor not yet
   * visited is visited, given cursor as predecessor, and enqueued.
   */
  method ScanEdges(g: Board, ghost origin: nat, ghost dest: nat, cursor: nat, ghost level: nat,
                   queue0: seq<nat>, visited0: set<nat>, prev0: map<nat, nat>,
                   ghost dist0: map<nat, nat>, ghost enqueued0: seq<nat>)
    returns (queue: seq<nat>, visited: set<nat>, prev: map<nat, nat>, ghost dist: map<nat, nat>, ghost enqueued: seq<nat>)
    requires WellFormed(g) && cursor < |g|
    requires Scanning(g, origin, dest, cursor, level, 0, queue0, visited0, prev0, dist0, enqueued0)
    ensures Scanning(g, origin, dest, cursor, level, |g[cursor]|, queue, visited, prev, dist, enqueued)
    ensures |g| - |visited| + |queue| == |g| - |visited0| + |queue0|
  {
    queue, visited, prev, dist, enqueued := queue0, visited0, prev0, dist0, enqueued0;
    var edges := g[cursor];
    for k := 0 to |edges|
      invariant Scanning(g, origin, dest, cursor, level, k, queue, visited, prev, dist, enqueued)
      invariant |g| - |visited| + |queue| == |g| - |visited0| + |queue0|
    {
      ScanStep(g, origin, dest, cursor, level, k, queue, visited, prev, dist, enqueued);
      var city := edges[k].nbr;
      if city.Some? && city.value !in visited {
        prev := prev[city.value := cursor];
        visited := visited + {city.value};
        dist := dist[city.value := level + 1];
        queue := queue + [city.value];
        enqueued := enqueued + [city.value];
      }
    }
  }

  /**
   * pathHelper: breadth-first search from origin over edges of either type,
   * each costing one.  The queue is first-in first-out, a city is marked
   * visited and given its predecessor when first discovered, unresolved
   * neighbours are skipped, and the search stops when dest reaches the head
   * of the queue.  Each city enters the queue at most once (`enqueued`).
   */
  method PathHelper(g: Board, origin: nat, dest: nat) returns (r: Option<seq<nat>>, ghost enqueued: seq<nat>)
    requires WellFormed(g) && origin < |g|
    ensures r.Some? ==> IsShortestBackPath(g, origin, dest, r.value)
    ensures r.None? ==> !Reachable(g, origin, dest)
    ensures forall i, j :: 0 <= i < j < |enqueued| ==> enqueued[i] != enqueued[j]
    ensures forall i :: 0 <= i < |enqueued| ==> enqueued[i] < |g|
  {
    var queue: seq<nat> := [origin];
    var visited: set<nat> := {origin};
    var prev: map<nat, nat> := map[];
    ghost var dist: map<nat, nat> := map[origin := 0];
    enqueued := [origin];
    CardinalityBound(visited, |g|);
    while queue != []
      invariant Searching(g, origin, dest, queue, visited, prev, dist, enqueued)
      decreases |g| - |visited| + |queue|
    {
      if queue[0] == dest {
        var path := BuildPath(prev, dest, g, origin, visited, dist);
        FoundIsShortest(g, origin, dest, queue, visited, prev, dist, enqueued, path);
        return Some(path), enqueued;
      }
      StartScan(g, origin, dest, queue, visited, prev, dist, enqueued);
      var cursor := queue[0];
      ghost var level := dist[cursor];
      queue, visited, prev, dist, enqueued := ScanEdges(g, origin, dest, cursor, level, queue[1..], visited, prev, dist, enqueued);
      FinishScan(g, origin, dest, cursor, level, queue, visited, prev, dist, enqueued);
    }
    ExhaustedUnreachable(g, origin, dest, visited, prev, dist, enqueued);
    r := None;
  }

  // ---------------------------------------------------------------------
  // The greedy tour (djikstrasAlgorithm) over the matrix of pairwise paths.

  /** What findShortestPath gives back: null, a list of cities, or an exception thrown. */
  datatype RouteResult = NoRoute | Route(cities: seq<nat>) | Crashed

  /** paths[i][j]: the path from card i to card j, destination first, or null. */
  type Matrix = seq<seq<Option<seq<nat>>>>

  predicate IsSquare(m: Matrix) {
    forall i :: 0 <= i < |m| ==> |m[i]| == |m|
  }

  /** Column j of row i may be picked: j >= 1, its path is not null and j was not picked before. */
  predicate IsCandidate(m: Matrix, i: nat, chosen: seq<nat>, j: nat) {
    i < |m| && 1 <= j < |m[i]| && m[i][j].Some? && j !in chosen
  }

  /** j is a candidate of row i with the fewest cities; on a tie, the lowest such index. */
  predicate IsNearest(m: Matrix, i: nat, chosen: seq<nat>, j: nat) {
    && IsCandidate(m, i, chosen, j)
    && forall j' :: 0 <= j' < |m[i]| && IsCandidate(m, i, chosen, j') ==>
         |m[i][j].value| < |m[i][j'].value| || (|m[i][j].value| == |m[i][j'].value| && j <= j')
  }

  /** The row the greedy loop reads before its t-th pick: row 0, then the previous pick. */
  function StopBefore(order: seq<nat>, t: nat): nat
    requires t <= |order|
  {
    if t == 0 then 0 else order[t - 1]
  }

  /** Every pick of `order` was a candidate when it was made. */
  predicate PicksValid(m: Matrix, order: seq<nat>) {
    forall t :: 0 <= t < |order| ==> IsCandidate(m, StopBefore(order, t), order[..t], order[t])
  }

  /**
   * `order` is the sequence of picks of the greedy loop: each pick is the
   * nearest candidate of the row of the previous pick, and after the last
   * pick no candidate is left.
   */
  predicate IsGreedyRun(m: Matrix, order: seq<nat>) {
    && NearestPicks(m, order)
    && (forall j :: 0 <= j < |m| ==> !IsCandidate(m, StopBefore(order, |order|), order, j))
  }

  /** Each pick of `order` was the nearest candidate when it was made. */
  predicate NearestPicks(m: Matrix, order: seq<nat>) {
    forall t :: 0 <= t < |order| ==> IsNearest(m, StopBefore(order, t), order[..t], order[t])
  }

  /**
   * Appends a path given destination first, as the two `toCity` loops do:
   * from its last element down to its first, skipping a city equal to the
   * current end of the route.
   */
  function AppendLeg(path: seq<nat>, leg: seq<nat>): seq<nat>
    decreases |leg|
  {
    if leg == [] then path
    else
      var c := leg[|leg| - 1];
      AppendLeg(if path == [] || c != path[|path| - 1] then path + [c] else path, leg[..|leg| - 1])
  }

  lemma PicksValidPrefix(m: Matrix, order: seq<nat>, n: nat)
    requires PicksValid(m, order) && n <= |order|
    ensures PicksValid(m, order[..n])
  {
    forall t | 0 <= t < n
      ensures IsCandidate(m, StopBefore(order[..n], t), order[..n][..t], order[..n][t])
    {
      assert order[..n][..t] == order[..t];
    }
  }

  /** The route the greedy loop has built once it has made the picks in `order`. */
  function Legs(m: Matrix, order: seq<nat>): seq<nat>
    requires PicksValid(m, order)
  {
    if order == [] then []
    else
      var t := |order| - 1;
      PicksValidPrefix(m, order, t);
      AppendLeg(Legs(m, order[..t]), m[StopBefore(order, t)][order[t]].value)
  }

  /**
   * The result of djikstrasAlgorithm for the picks `order`: the closing path
   * from the last pick back to row 0 is appended and the first city is
   * removed.  A null closing path (always so when nothing was picked, as
   * paths[0][0] is null) or an empty route throws.
   */
  function TourOf(m: Matrix, order: seq<nat>): RouteResult
    requires PicksValid(m, order)
  {
    var last := StopBefore(order, |order|);
    if last >= |m| || |m[last]| == 0 || m[last][0].None? then Crashed
    else
      var full := AppendLeg(Legs(m, order), m[last][0].value);
      if full == [] then Crashed else Route(full[1..])
  }

  /** The two `toCity` loops: append a destination-first path from its end to its start. */
  method AddLeg(path: seq<nat>, toCity: seq<nat>) returns (result: seq<nat>)
    ensures result == AppendLeg(path, toCity)
  {
    result := path;
    var k := |toCity| - 1;
    assert toCity[..k + 1] == toCity;
    while k >= 0
      invariant -1 <= k < |toCity|
      invariant AppendLeg(result, toCity[..k + 1]) == AppendLeg(path, toCity)
    {
      assert toCity[..k + 1][..k] == toCity[..k];
      if |result| == 0 || toCity[k] != result[|result| - 1] {
        result := result + [toCity[k]];
      }
      k := k - 1;
    }
  }

  lemma {:induction false} DistinctBound(s: seq<nat>, n: nat)
    requires forall i, j :: 0 <= i < j < |s| ==> s[i] != s[j]
    requires forall i :: 0 <= i < |s| ==> 1 <= s[i] < n
    ensures |s| < n || s == []
    decreases |s|
  {
    if s != [] {
      var last := s[|s| - 1];
      var rest := s[..|s| - 1];
      var shifted := seq(|rest|, i requires 0 <= i < |rest| => if rest[i] < last then rest[i] else rest[i] - 1);
      forall i, j | 0 <= i < j < |shifted|
        ensures shifted[i] != shifted[j]
      {
        assert rest[i] != last && rest[j] != last;
      }
      forall i | 0 <= i < |shifted|
        ensures 1 <= shifted[i] < n - 1
      {
        assert rest[i] != last;
      }
      DistinctBound(shifted, n - 1);
    }
  }

  /**
   * The inner loop of djikstrasAlgorithm over row i: the nearest candidate,
   * or -1 when there is none.
   */
  method NearestCandidate(m: Matrix, i: nat, selected: seq<nat>) returns (best: int)
    requires i < |m| && |m[i]| >= 1
    ensures best == -1 <==> forall j :: 0 <= j < |m[i]| ==> !IsCandidate(m, i, selected, j)
    ensures best != -1 ==> best >= 0 && IsNearest(m, i, selected, best)
  {
    best := -1;
    for j := 1 to |m[i]|
      invariant best == -1 ==> forall j' :: 0 <= j' < j ==> !IsCandidate(m, i, selected, j')
      invariant best != -1 ==> 1 <= best < j && IsCandidate(m, i, selected, best)
      invariant best != -1 ==> forall j' :: 0 <= j' < j && IsCandidate(m, i, selected, j') ==>
                  |m[i][best].value| < |m[i][j'].value| || (|m[i][best].value| == |m[i][j'].value| && best <= j')
    {
      if m[i][j].None? || j in selected {
        continue;
      }
      if best == -1 {
        best := j;
      } else if |m[i][j].value| < |m[i][best].value| {
        best := j;
      }
    }
  }

  /** Extending a run of nearest picks by the nearest candidate of the current row. */
  lemma PickStep(m: Matrix, selected: seq<nat>, best: nat)
    requires NearestPicks(m, selected) && PicksValid(m, selected)
    requires IsNearest(m, StopBefore(selected, |selected|), selected, best)
    ensures NearestPicks(m, selected + [best]) && PicksValid(m, selected + [best])
    ensures Legs(m, selected + [best])
         == AppendLeg(Legs(m, selected), m[StopBefore(selected, |selected|)][best].value)
  {
    var next := selected + [best];
    assert next[..|selected|] == selected;
    forall t | 0 <= t < |next|
      ensures IsNearest(m, StopBefore(next, t), next[..t], next[t])
    {
      if t < |selected| {
        assert next[..t] == selected[..t];
      }
    }
  }

  /** The state of djikstrasAlgorithm's outer loop after the picks `selected`. */
  predicate Greedy(m: Matrix, selected: seq<nat>, i: nat, path: seq<nat>) {
    && |m| >= 1 && IsSquare(m)
    && NearestPicks(m, selected) && PicksValid(m, selected)
    && i == StopBefore(selected, |selected|) && i < |m|
    && |selected| < |m|
    && (forall a, b :: 0 <= a < b < |selected| ==> selected[a] != selected[b])
    && (forall a :: 0 <= a < |selected| ==> 1 <= selected[a] < |m|)
    && path == Legs(m, selected)
  }

  lemma GreedyStep(m: Matrix, selected: seq<nat>, i: nat, path: seq<nat>, best: nat)
    requires Greedy(m, selected, i, path) && IsNearest(m, i, selected, best)
    ensures Greedy(m, selected + [best], best, AppendLeg(path, m[i][best].value))
  {
    PickStep(m, selected, best);
    DistinctBound(selected + [best], |m|);
  }

  /**
   * djikstrasAlgorithm.  Starting from row 0, repeatedly picks the nearest
   * unpicked column j >= 1 of the current row, appends its path and moves to
   * row j; it stops when no candidate is left (`order` records the picks).
   * Then it appends the path back to column 0 and drops the first city.
   */
  method GreedyTour(m: Matrix) returns (r: RouteResult, ghost order: seq<nat>)
    requires |m| >= 1 && IsSquare(m)
    ensures IsGreedyRun(m, order)
    ensures r == TourOf(m, order)
  {
    var selected: seq<nat> := [];
    var path: seq<nat> := [];
    var i := 0;
    var count := 0;
    while count < |m|
      invariant Greedy(m, selected, i, path)
      invariant count == |selected|
      decreases |m| - count
    {
      var best := NearestCandidate(m, i, selected);
      if best < 0 {
        break;
      }
      GreedyStep(m, selected, i, path, best);
      path := AddLeg(path, m[i][best].value);
      selected := selected + [best];
      i := best;
      count := count + 1;
    }
    order := selected;
    var toCity := m[i][0];
    if toCity.None? {
      r := Crashed;
      return;
    }
    path := AddLeg(path, toCity.value);
    if path == [] {
      r := Crashed;
      return;
    }
    r := Route(path[1..]);
  }

  // ---------------------------------------------------------------------
  // findShortestPath: the matrix of pairwise shortest paths, then the tour.

  /**
   * paths[i][j] as findShortestPath fills it: null for the same city, else
   * what pathHelper gives from card i to card j — a shortest path, destination
   * first, or null when there is none.
   */
  ghost predicate EntryOk(g: Board, d: seq<nat>, i: nat, j: nat, e: Option<seq<nat>>)
    requires i < |d| && j < |d|
  {
    if d[i] == d[j] then e.None?
    else if e.Some? then IsShortestBackPath(g, d[i], d[j], e.value)
    else !Reachable(g, d[i], d[j])
  }

  ghost predicate PathMatrix(g: Board, d: seq<nat>, m: Matrix) {
    && |m| == |d| && IsSquare(m)
    && forall i, j :: 0 <= i < |d| && 0 <= j < |d| ==> EntryOk(g, d, i, j, m[i][j])
  }

  /** The inner loop of findShortestPath: the paths from card i to every card. */
  method PathRow(g: Board, d: seq<nat>, i: nat) returns (row: seq<Option<seq<nat>>>)
    requires WellFormed(g) && i < |d| && forall k :: 0 <= k < |d| ==> d[k] < |g|
    ensures |row| == |d| && forall b :: 0 <= b < |d| ==> EntryOk(g, d, i, b, row[b])
  {
    row := [];
    for j := 0 to |d|
      invariant |row| == j
      invariant forall b :: 0 <= b < j ==> EntryOk(g, d, i, b, row[b])
    {
      if d[j] != d[i] {
        var p, _ := PathHelper(g, d[i], d[j]);
        row := row + [p];
      } else {
        row := row + [None];
      }
    }
  }

  /**
   * findShortestPath: null when the origin or the list is null or the list is
   * empty; otherwise the greedy tour over the pairwise paths of the cards.
   * The origin is only checked for null: the tour starts and ends at the
   * first card.
   */
  method FindShortestPath(g: Board, origin: Option<nat>, destinations: Option<seq<nat>>)
    returns (r: RouteResult, ghost m: Matrix, ghost order: seq<nat>)
    requires WellFormed(g)
    requires destinations.Some? ==> forall k :: 0 <= k < |destinations.value| ==> destinations.value[k] < |g|
    ensures origin.None? || destinations.None? || destinations.value == [] ==> r == NoRoute
    ensures origin.Some? && destinations.Some? && destinations.value != [] ==>
              PathMatrix(g, destinations.value, m) && IsGreedyRun(m, order) && r == TourOf(m, order)
  {
    m, order := [], [];
    if origin.None? || destinations.None? || destinations.value == [] {
      return NoRoute, m, order;
    }
    var d := destinations.value;
    var paths: Matrix := [];
    for i := 0 to |d|
      invariant |paths| == i
      invariant forall a :: 0 <= a < i ==> |paths[a]| == |d|
      invariant forall a, b :: 0 <= a < i && 0 <= b < |d| ==> EntryOk(g, d, a, b, paths[a][b])
    {
      var row := PathRow(g, d, i);
      paths := paths + [row];
    }
    m := paths;
    r, order := GreedyTour(paths);
  }

  // ---------------------------------------------------------------------
  // What the tour is.

  /** No city follows itself: the `toCity` loops never add the city already at the end. */
  predicate NoRepeatedStop(p: seq<nat>) {
    forall i :: 0 <= i < |p| - 1 ==> p[i] != p[i + 1]
  }

  /** Appending never changes what is already in the route. */
  lemma {:induction false} AppendLegExtends(path: seq<nat>, leg: seq<nat>)
    ensures |AppendLeg(path, leg)| >= |path|
    ensures AppendLeg(path, leg)[..|path|] == path
    decreases |leg|
  {
    if leg != [] {
      var c := leg[|leg| - 1];
      var next := if path == [] || c != path[|path| - 1] then path + [c] else path;
      AppendLegExtends(next, leg[..|leg| - 1]);
      assert next[..|path|] == path;
      assert AppendLeg(path, leg)[..|path|] == AppendLeg(path, leg)[..|next|][..|path|];
    }
  }

  /** A non-empty path ends the route at its destination (its first element). */
  lemma {:induction false} AppendLegEnds(path: seq<nat>, leg: seq<nat>)
    requires leg != []
    ensures AppendLeg(path, leg) != []
    ensures AppendLeg(path, leg)[|AppendLeg(path, leg)| - 1] == leg[0]
    ensures path == [] ==> AppendLeg(path, leg)[0] == leg[|leg| - 1]
    decreases |leg|
  {
    var c := leg[|leg| - 1];
    var next := if path == [] || c != path[|path| - 1] then path + [c] else path;
    if |leg| == 1 {
      assert AppendLeg(path, leg) == AppendLeg(next, []) == next;
    } else {
      AppendLegEnds(next, leg[..|leg| - 1]);
      AppendLegExtends(next, leg[..|leg| - 1]);
      if path == [] {
        assert AppendLeg(path, leg)[..|next|] == next == [c];
      }
    }
  }

  /**
   * Appending a path that starts where the route ends (or next to it) keeps
   * the route a walk on the map with no city repeated in a row.
   */
  lemma {:induction false} AppendLegRoute(g: Board, path: seq<nat>, leg: seq<nat>)
    requires IsBackRoute(g, leg)
    requires path == [] || (IsRoute(g, path) && NoRepeatedStop(path) &&
      (path[|path| - 1] == leg[|leg| - 1] || Adjacent(g, path[|path| - 1], leg[|leg| - 1])))
    ensures IsRoute(g, AppendLeg(path, leg)) && NoRepeatedStop(AppendLeg(path, leg))
    decreases |leg|
  {
    var c := leg[|leg| - 1];
    var next := if path == [] || c != path[|path| - 1] then path + [c] else path;
    assert IsRoute(g, next) && NoRepeatedStop(next) && next[|next| - 1] == c;
    var rest := leg[..|leg| - 1];
    if rest == [] {
      assert AppendLeg(path, leg) == next;
    } else {
      assert Adjacent(g, leg[|leg| - 1], leg[|leg| - 2]);
      AppendLegRoute(g, next, rest);
    }
  }

  /** Every non-null entry of the matrix is a path from card i to card j, destination first. */
  predicate BackPaths(g: Board, d: seq<nat>, m: Matrix) {
    && |m| == |d| && IsSquare(m)
    && forall i, j :: 0 <= i < |d| && 0 <= j < |d| && m[i][j].Some? ==>
         && d[i] != d[j] && IsBackRoute(g, m[i][j].value)
         && m[i][j].value[0] == d[j] && m[i][j].value[|m[i][j].value| - 1] == d[i]
  }

  lemma PathMatrixBackPaths(g: Board, d: seq<nat>, m: Matrix)
    requires PathMatrix(g, d, m)
    ensures BackPaths(g, d, m)
  {
    forall i, j | 0 <= i < |d| && 0 <= j < |d| && m[i][j].Some?
      ensures d[i] != d[j] && IsBackRoute(g, m[i][j].value)
      ensures m[i][j].value[0] == d[j] && m[i][j].value[|m[i][j].value| - 1] == d[i]
    {
      assert EntryOk(g, d, i, j, m[i][j]);
    }
  }

  lemma LegOf(g: Board, d: seq<nat>, m: Matrix, i: nat, j: nat)
    requires BackPaths(g, d, m) && i < |d| && j < |d| && m[i][j].Some?
    ensures var leg := m[i][j].value;
      d[i] != d[j] && IsBackRoute(g, leg) && leg[0] == d[j] && leg[|leg| - 1] == d[i]
  {
  }

  /** Appending a path that starts where a route of two or more cities ends. */
  lemma ExtendRoute(g: Board, route: seq<nat>, leg: seq<nat>)
    requires |route| >= 2 && IsRoute(g, route) && NoRepeatedStop(route)
    requires IsBackRoute(g, leg) && route[|route| - 1] == leg[|leg| - 1]
    ensures var r := AppendLeg(route, leg);
      && |r| >= 2 && IsRoute(g, r) && NoRepeatedStop(r)
      && r[0] == route[0] && r[|r| - 1] == leg[0]
      && forall x :: x in route ==> x in r
  {
    AppendLegRoute(g, route, leg);
    AppendLegEnds(route, leg);
    AppendLegExtends(route, leg);
    var r := AppendLeg(route, leg);
    forall x | x in route
      ensures x in r
    {
      var k :| 0 <= k < |route| && route[k] == x;
      assert r[..|route|][k] == x;
    }
  }

  /** What holds of the route once the picks `order` are made. */
  ghost predicate LegsOk(g: Board, d: seq<nat>, order: seq<nat>, route: seq<nat>) {
    && order != [] && |d| >= 1
    && (forall t :: 0 <= t < |order| ==> order[t] < |d|)
    && |route| >= 2 && IsRoute(g, route) && NoRepeatedStop(route)
    && route[0] == d[0] && route[|route| - 1] == d[order[|order| - 1]]
    && forall t :: 0 <= t < |order| ==> d[order[t]] in route
  }

  /** The route after the picks `order`: a walk from the first card to the last pick, through every pick. */
  lemma FirstLeg(g: Board, d: seq<nat>, j: nat, leg: seq<nat>)
    requires 0 < j < |d| && d[0] != d[j]
    requires IsBackRoute(g, leg) && leg[0] == d[j] && leg[|leg| - 1] == d[0]
    ensures LegsOk(g, d, [j], AppendLeg([], leg))
  {
    AppendLegRoute(g, [], leg);
    AppendLegEnds([], leg);
  }

  lemma NextLeg(g: Board, d: seq<nat>, before: seq<nat>, prior: seq<nat>, j: nat, leg: seq<nat>)
    requires LegsOk(g, d, before, prior) && j < |d|
    requires IsBackRoute(g, leg) && leg[0] == d[j] && leg[|leg| - 1] == d[before[|before| - 1]]
    ensures LegsOk(g, d, before + [j], AppendLeg(prior, leg))
  {
    ExtendRoute(g, prior, leg);
    var order := before + [j];
    forall t | 0 <= t < |order|
      ensures d[order[t]] in AppendLeg(prior, leg)
    {
      if t < |before| {
        assert order[t] == before[t];
        assert d[before[t]] in prior;
      }
    }
  }

  /** The route after the picks `order`: a walk from the first card to the last pick, through every pick. */
  lemma {:induction false} LegsRoute(g: Board, d: seq<nat>, m: Matrix, order: seq<nat>)
    requires BackPaths(g, d, m) && PicksValid(m, order) && order != []
    ensures LegsOk(g, d, order, Legs(m, order))
    decreases |order|
  {
    var n := |order| - 1;
    var s := StopBefore(order, n);
    var j := order[n];
    var before := order[..n];
    assert s < |d| && j < |d| && m[s][j].Some? by {
      assert IsCandidate(m, s, order[..n], j);
    }
    var leg := m[s][j].value;
    LegOf(g, d, m, s, j);
    PicksValidPrefix(m, order, n);
    assert order == before + [j];
    assert Legs(m, order) == AppendLeg(Legs(m, before), leg);
    if n == 0 {
      assert Legs(m, before) == [];
      FirstLeg(g, d, j, leg);
    } else {
      LegsRoute(g, d, m, before);
      assert s == before[n - 1];
      NextLeg(g, d, before, Legs(m, before), j, leg);
    }
  }

  /**
   * With the matrix findShortestPath builds, a tour that does not throw is a
   * walk on the map that leaves the first card, passes every picked card,
   * ends back at the first card and never repeats a city in a row.
   */
  lemma TourIsRoute(g: Board, d: seq<nat>, m: Matrix, order: seq<nat>)
    requires PathMatrix(g, d, m) && IsGreedyRun(m, order) && TourOf(m, order).Route?
    ensures var c := TourOf(m, order).cities;
      && IsRoute(g, c) && NoRepeatedStop(c)
      && Adjacent(g, d[0], c[0]) && c[|c| - 1] == d[0]
      && forall t :: 0 <= t < |order| ==> d[order[t]] in c
  {
    PathMatrixBackPaths(g, d, m);
    GreedyPicksValid(m, order);
    TourOfRoute(g, d, m, order);
  }

  /** What the tour is, given the route the picks made and the closing path to the first card. */
  ghost predicate TourOk(g: Board, d: seq<nat>, order: seq<nat>, c: seq<nat>)
    requires |d| >= 1
  {
    && IsRoute(g, c) && NoRepeatedStop(c)
    && Adjacent(g, d[0], c[0]) && c[|c| - 1] == d[0]
    && forall t :: 0 <= t < |order| ==> order[t] < |d| && d[order[t]] in c
  }

  lemma CloseTour(g: Board, d: seq<nat>, order: seq<nat>, route: seq<nat>, closing: seq<nat>)
    requires LegsOk(g, d, order, route)
    requires IsBackRoute(g, closing) && closing[0] == d[0] && closing[|closing| - 1] == d[order[|order| - 1]]
    ensures |AppendLeg(route, closing)| >= 2
    ensures TourOk(g, d, order, AppendLeg(route, closing)[1..])
  {
    ExtendRoute(g, route, closing);
    var full := AppendLeg(route, closing);
    var c := full[1..];
    assert Adjacent(g, full[0], full[1]);
    forall t | 0 <= t < |order|
      ensures d[order[t]] in c
    {
      assert d[order[t]] in full;
      var k :| 0 <= k < |full| && full[k] == d[order[t]];
      if k == 0 {
        assert c[|c| - 1] == d[0];
      } else {
        assert c[k - 1] == full[k];
      }
    }
  }

  lemma TourOfRoute(g: Board, d: seq<nat>, m: Matrix, order: seq<nat>)
    requires BackPaths(g, d, m) && PicksValid(m, order) && TourOf(m, order).Route?
    ensures |d| >= 1 && TourOk(g, d, order, TourOf(m, order).cities)
  {
    var s := StopBefore(order, |order|);
    assert m[s][0].Some?;
    LegOf(g, d, m, s, 0);
    assert order != [];
    LegsRoute(g, d, m, order);
    CloseTour(g, d, order, Legs(m, order), m[s][0].value);
  }

  lemma GreedyPicksValid(m: Matrix, order: seq<nat>)
    requires IsGreedyRun(m, order)
    ensures PicksValid(m, order)
  {
    forall t | 0 <= t < |order|
      ensures IsCandidate(m, StopBefore(order, t), order[..t], order[t])
    {
      assert IsNearest(m, StopBefore(order, t), order[..t], order[t]);
    }
  }

  /** Every pick is a card other than the first, and no card is picked twice. */
  lemma GreedyPicksDistinct(m: Matrix, order: seq<nat>)
    requires IsSquare(m) && IsGreedyRun(m, order)
    ensures forall a :: 0 <= a < |order| ==> 1 <= order[a] < |m|
    ensures forall a, b :: 0 <= a < b < |order| ==> order[a] != order[b]
  {
    forall a, b | 0 <= a < b < |order|
      ensures order[a] != order[b]
    {
      assert IsCandidate(m, StopBefore(order, b), order[..b], order[b]);
      assert order[a] == order[..b][a];
    }
  }

  /** When every card has a path to every other card, the greedy loop picks them all. */
  lemma GreedyPicksAll(m: Matrix, order: seq<nat>)
    requires |m| >= 1 && IsSquare(m) && IsGreedyRun(m, order)
    requires forall i, j :: 0 <= i < |m| && 1 <= j < |m| && i != j ==> m[i][j].Some?
    ensures forall j :: 1 <= j < |m| ==> j in order
  {
    var s := StopBefore(order, |order|);
    forall j | 1 <= j < |m|
      ensures j in order
    {
      if j == s {
        assert order[|order| - 1] == j;
      } else {
        assert !IsCandidate(m, s, order, j);
      }
    }
  }

  /**
   * On an undirected map where every card can be reached from the first one,
   * findShortestPath's tour picks every other card exactly once.
   */
  lemma TourVisitsEveryCard(g: Board, d: seq<nat>, m: Matrix, order: seq<nat>)
    requires Undirected(g) && |d| >= 1 && PathMatrix(g, d, m) && IsGreedyRun(m, order)
    requires forall a, b :: 0 <= a < b < |d| ==> d[a] != d[b]
    requires forall k :: 0 <= k < |d| ==> Reachable(g, d[0], d[k])
    ensures forall j :: 1 <= j < |d| ==> j in order
    ensures forall a, b :: 0 <= a < b < |order| ==> order[a] != order[b]
  {
    forall i, j | 0 <= i < |m| && 1 <= j < |m| && i != j
      ensures m[i][j].Some?
    {
      ReachableSymmetric(g, d[0], d[i]);
      ReachableTransitive(g, d[i], d[0], d[j]);
      assert EntryOk(g, d, i, j, m[i][j]);
    }
    GreedyPicksAll(m, order);
    GreedyPicksDistinct(m, order);
  }
}
