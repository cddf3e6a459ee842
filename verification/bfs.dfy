/**
 bfs_path (main.py:55-74): breadth-first search from a source over a FIFO
 queue of (node, parent) pairs, recording for each vertex the parent it was
 first dequeued with.
 */
module Bfs {
  import opened Options
  import opened Graphs

  /** A queued (node, parent) pair; the source is queued with parent None. */
  type Pending<V> = (V, Option<V>)

  /**
   What bfs_path returns (main.py:55-74): a parent table whose keys are
   exactly the vertices reachable from s, giving s no parent and every other
   key a parent that is itself a key with an edge to it, such that the
   parent chain of every key is as long as a shortest path to it.
   */
  ghost predicate IsBfsTree<V(!new)>(g: Graph<V>, s: V, parents: map<V, Option<V>>) {
    && ParentEdges(g, s, parents)
    && (forall v | v in parents :: PathReaches(g, s, v))
    && (forall p | IsPath(g, s, p) :: PathEnd(s, p) in parents)
    && (forall v | v in parents :: exists n :: ChainLen(parents, v, n) && MinHops(g, s, v, n))
  }

  /** s is a key without parent, and every other key has a parent that is a
      key with an edge to it. */
  ghost predicate ParentEdges<V>(g: Graph<V>, s: V, parents: map<V, Option<V>>) {
    && s in parents && parents[s] == None
    && forall v {:trigger parents[v]} | v in parents && v != s ::
         parents[v].Some? && parents[v].value in parents && parents[v].value in g && v in g[parents[v].value]
  }

  /** pairs holds one (w, Some(node)) for each w in targets and nothing else. */
  ghost predicate PairsFor<V>(pairs: seq<Pending<V>>, node: V, targets: set<V>) {
    && |pairs| == |targets|
    && (forall i | 0 <= i < |pairs| :: pairs[i].1 == Some(node) && pairs[i].0 in targets)
    && (forall w | w in targets :: (w, Some(node)) in pairs)
  }

  /** queue' is tail followed by one (w, Some(node)) for each w in targets. */
  ghost predicate Enqueued<V>(tail: seq<Pending<V>>, queue': seq<Pending<V>>, node: V, targets: set<V>) {
    && |tail| <= |queue'| && queue'[..|tail|] == tail
    && PairsFor(queue'[|tail|..], node, targets)
  }

  /**
   One turn of the loop of main.py:65-72: pop the front pair; if its node is
   unvisited, mark it visited, record its parent and queue every neighbour
   that is still unvisited, with the node as parent. A visited node is
   dropped and nothing else changes, so a parent, once recorded, is never
   overwritten.
   */
  method Dequeue<V(==)>(graph: Graph<V>, visited: set<V>, queue: seq<Pending<V>>, parents: map<V, Option<V>>)
    returns (visited': set<V>, queue': seq<Pending<V>>, parents': map<V, Option<V>>)
    requires |queue| > 0
    requires queue[0].0 !in visited ==> queue[0].0 in graph
    ensures forall v | v in parents && v in visited :: v in parents' && parents'[v] == parents[v]
    ensures queue[0].0 in visited ==> visited' == visited && queue' == queue[1..] && parents' == parents
    ensures queue[0].0 !in visited ==>
              && visited' == visited + {queue[0].0}
              && parents' == parents[queue[0].0 := queue[0].1]
              && Enqueued(queue[1..], queue', queue[0].0, graph[queue[0].0] - visited')
  {
    var node, parent := queue[0].0, queue[0].1;
    visited', queue', parents' := visited, queue[1..], parents;
    if node !in visited {
      visited' := visited + {node};
      parents' := parents[node := parent];
      var pairs := NeighbourPairs(node, graph[node], visited');
      queue' := queue[1..] + pairs;
      assert queue'[|queue| - 1..] == pairs;
    }
  }

  /**
   The inner loop of main.py:70-72: one (w, Some(node)) pair for every
   neighbour w of node that is not visited, in any order.
   */
  method NeighbourPairs<V(==)>(node: V, neighbours: set<V>, visited: set<V>) returns (pairs: seq<Pending<V>>)
    ensures PairsFor(pairs, node, neighbours - visited)
  {
    pairs := [];
    var todo := neighbours;
    while todo != {}
      invariant todo <= neighbours
      invariant PairsFor(pairs, node, (neighbours - visited) - todo)
      decreases |todo|
    {
      var neighbor :| neighbor in todo;
      ghost var added := (neighbours - visited) - todo;
      if neighbor !in visited {
        PairsForOne(pairs, node, added, neighbor);
        pairs := pairs + [(neighbor, Some(node))];
        assert (neighbours - visited) - (todo - {neighbor}) == added + {neighbor};
      } else {
        assert (neighbours - visited) - (todo - {neighbor}) == added;
      }
      todo := todo - {neighbor};
    }
    assert (neighbours - visited) - todo == neighbours - visited;
  }

  /** One more pair for a new target keeps PairsFor. */
  lemma PairsForOne<V>(pairs: seq<Pending<V>>, node: V, targets: set<V>, w: V)
    requires PairsFor(pairs, node, targets) && w !in targets
    ensures PairsFor(pairs + [(w, Some(node))], node, targets + {w})
  {
    var pairs' := pairs + [(w, Some(node))];
    forall x | x in targets + {w}
      ensures (x, Some(node)) in pairs'
    {
      if x != w {
        var i :| 0 <= i < |pairs| && pairs[i] == (x, Some(node));
        assert pairs'[i] == pairs[i];
      }
    }
  }

  // The loop invariant of the search. `level` gives each visited vertex the
  // length of its parent chain, `floor` is the level of the pair dequeued
  // last, the first `mid` queued pairs are at level floor and the rest at
  // floor + 1, and `paths` holds, for each visited vertex, a path as long as
  // its level.

  /** The level a queued pair gives its node when it is dequeued first. */
  function EntryLevel<V>(level: map<V, nat>, q: Pending<V>): nat {
    if q.1.Some? && q.1.value in level then level[q.1.value] + 1 else 0
  }

  /** Visited vertices, parents and levels form a tree rooted at s. */
  ghost predicate TreeShape<V>(g: Graph<V>, s: V, visited: set<V>, parents: map<V, Option<V>>, level: map<V, nat>) {
    && parents.Keys == visited && level.Keys == visited && visited <= g.Keys
    && (visited != {} ==> s in visited)
    && forall v {:trigger parents[v]} | v in visited ::
         if v == s then parents[v] == None && level[v] == 0
         else && parents[v].Some? && parents[v].value in visited
              && v in g[parents[v].value] && level[v] == level[parents[v].value] + 1
  }

  /** The queue starts as (s, None); every other pair names a visited parent
      and one of its out-neighbours. */
  ghost predicate QueueShape<V>(g: Graph<V>, s: V, visited: set<V>, queue: seq<Pending<V>>) {
    && (visited == {} ==> queue == [(s, None)])
    && forall i | 0 <= i < |queue| ::
         if queue[i].1.None? then queue[i].0 == s
         else queue[i].1.value in visited && queue[i].1.value in g && queue[i].0 in g[queue[i].1.value]
  }

  /** The queue holds mid pairs at level floor followed by pairs at level
      floor + 1; visited levels are at most floor. */
  ghost predicate QueueLevels<V>(level: map<V, nat>, queue: seq<Pending<V>>, floor: nat, mid: nat) {
    && mid <= |queue|
    && (forall i | 0 <= i < |queue| :: EntryLevel(level, queue[i]) == if i < mid then floor else floor + 1)
    && (forall v | v in level :: level[v] <= floor)
  }

  /** Where the level boundary of the queue lies once its head is dequeued. */
  function NextMid<V>(queue: seq<Pending<V>>, mid: nat): nat {
    if mid > 0 then mid - 1 else if |queue| > 0 then |queue| - 1 else 0
  }

  /** Each edge out of a visited vertex either reaches a visited vertex at
      most one level further down or is still queued. */
  ghost predicate Frontier<V>(g: Graph<V>, visited: set<V>, queue: seq<Pending<V>>, level: map<V, nat>) {
    forall u, w {:trigger w in g[u]} | u in visited && u in g && w in g[u] ::
      (w in visited && w in level && u in level && level[w] <= level[u] + 1) || (w, Some(u)) in queue
  }

  /** Every visited vertex has a recorded path from s as long as its level. */
  ghost predicate PathsWitnessed<V>(g: Graph<V>, s: V, level: map<V, nat>, paths: map<V, Path<V>>) {
    forall v | v in level ::
      v in paths && IsPath(g, s, paths[v]) && PathEnd(s, paths[v]) == v && |paths[v]| == level[v]
  }

  ghost predicate BfsInv<V>(g: Graph<V>, s: V, visited: set<V>, queue: seq<Pending<V>>,
                            parents: map<V, Option<V>>, level: map<V, nat>, floor: nat, mid: nat,
                            paths: map<V, Path<V>>)
  {
    && TreeShape(g, s, visited, parents, level)
    && QueueShape(g, s, visited, queue)
    && QueueLevels(level, queue, floor, mid)
    && Frontier(g, visited, queue, level)
    && PathsWitnessed(g, s, level, paths)
  }

  /** The initial state of main.py:62-64 satisfies the invariant. */
  lemma BfsStartInv<V>(g: Graph<V>, s: V)
    ensures BfsInv(g, s, {}, [(s, None)], map[], map[], 0, 1, map[])
  {
  }

  /** The node at the front of the queue is a key of g when it is unvisited,
      so graph[node] at main.py:70 does not fail. */
  lemma HeadInGraph<V(!new)>(g: Graph<V>, s: V, visited: set<V>, queue: seq<Pending<V>>,
                             level: map<V, nat>, paths: map<V, Path<V>>)
    requires PathsStayInGraph(g, s)
    requires level.Keys == visited && QueueShape(g, s, visited, queue) && PathsWitnessed(g, s, level, paths)
    requires |queue| > 0
    ensures queue[0].0 in g
  {
    assert IsPath(g, s, []);
    if queue[0].1.Some? {
      var u := queue[0].1.value;
      PathAppend(g, s, paths[u], queue[0].0);
    }
  }

  /** Dropping a pair whose node is already visited (main.py:68) keeps the
      invariant, with the dropped pair's level as the new floor. */
  lemma SkipStep<V>(g: Graph<V>, s: V, visited: set<V>, queue: seq<Pending<V>>,
                    parents: map<V, Option<V>>, level: map<V, nat>, floor: nat, mid: nat,
                    paths: map<V, Path<V>>, queue': seq<Pending<V>>)
    requires BfsInv(g, s, visited, queue, parents, level, floor, mid, paths)
    requires |queue| > 0 && queue[0].0 in visited && queue' == queue[1..]
    ensures BfsInv(g, s, visited, queue', parents, level, EntryLevel(level, queue[0]), NextMid(queue, mid), paths)
  {
    var fl, mid' := EntryLevel(level, queue[0]), NextMid(queue, mid);
    forall i | 0 <= i < |queue'|
      ensures EntryLevel(level, queue'[i]) == if i < mid' then fl else fl + 1
    {
      assert queue'[i] == queue[i + 1];
    }
    forall u, w | u in visited && u in g && w in g[u]
      ensures (w in visited && level[w] <= level[u] + 1) || (w, Some(u)) in queue[1..]
    {
      if (w, Some(u)) == queue[0] {
        assert level[w] <= floor;
      } else {
        InTail(queue, (w, Some(u)));
      }
    }
  }

  /** An element of a sequence other than its head is in its tail. */
  lemma InTail<T>(q: seq<T>, x: T)
    requires |q| > 0 && x != q[0]
    ensures x in q <==> x in q[1..]
  {
    if x in q {
      var i :| 0 <= i < |q| && q[i] == x;
      assert q[1..][i - 1] == x;
    }
  }

  /** The tree part of the invariant after the first dequeue of a node. */
  lemma VisitTree<V>(g: Graph<V>, s: V, visited: set<V>, queue: seq<Pending<V>>,
                     parents: map<V, Option<V>>, level: map<V, nat>)
    requires TreeShape(g, s, visited, parents, level) && QueueShape(g, s, visited, queue)
    requires |queue| > 0 && queue[0].0 !in visited && queue[0].0 in g
    ensures TreeShape(g, s, visited + {queue[0].0}, parents[queue[0].0 := queue[0].1],
                      level[queue[0].0 := EntryLevel(level, queue[0])])
  {
  }

  /** The queue's shape after the first dequeue of a node. */
  lemma VisitQueueShape<V>(g: Graph<V>, s: V, visited: set<V>, queue: seq<Pending<V>>, queue': seq<Pending<V>>)
    requires QueueShape(g, s, visited, queue)
    requires |queue| > 0 && queue[0].0 !in visited && queue[0].0 in g
    requires Enqueued(queue[1..], queue', queue[0].0, g[queue[0].0] - (visited + {queue[0].0}))
    ensures QueueShape(g, s, visited + {queue[0].0}, queue')
  {
    var n := |queue| - 1;
    forall i | 0 <= i < |queue'|
      ensures if queue'[i].1.None? then queue'[i].0 == s
              else queue'[i].1.value in visited + {queue[0].0} && queue'[i].1.value in g
                   && queue'[i].0 in g[queue'[i].1.value]
    {
      if i < n {
        assert queue'[i] == queue[i + 1];
      } else {
        assert queue'[i] == queue'[n..][i - n];
      }
    }
  }

  /** The queue's levels after the first dequeue of a node: the pairs it
      queues sit one level below it, behind all others. */
  lemma VisitQueueLevels<V>(g: Graph<V>, s: V, visited: set<V>, queue: seq<Pending<V>>,
                            level: map<V, nat>, floor: nat, mid: nat, queue': seq<Pending<V>>)
    requires level.Keys == visited && QueueShape(g, s, visited, queue) && QueueLevels(level, queue, floor, mid)
    requires |queue| > 0 && queue[0].0 !in visited && queue[0].0 in g
    requires Enqueued(queue[1..], queue', queue[0].0, g[queue[0].0] - (visited + {queue[0].0}))
    ensures QueueLevels(level[queue[0].0 := EntryLevel(level, queue[0])], queue', EntryLevel(level, queue[0]),
                        NextMid(queue, mid))
  {
    var node, fl, mid' := queue[0].0, EntryLevel(level, queue[0]), NextMid(queue, mid);
    var level' := level[node := fl];
    var n := |queue| - 1;
    assert fl == if 0 < mid then floor else floor + 1;
    forall i | 0 <= i < |queue'|
      ensures EntryLevel(level', queue'[i]) == if i < mid' then fl else fl + 1
    {
      if i < n {
        var q := queue[i + 1];
        assert queue'[i] == q;
        assert q.1.Some? ==> q.1.value in visited;
        assert EntryLevel(level', q) == EntryLevel(level, q);
      } else {
        assert queue'[i] == queue'[n..][i - n];
        assert queue'[i].1 == Some(node);
      }
    }
  }

  /** The frontier part of the invariant after the first dequeue of a node. */
  lemma VisitFrontier<V>(g: Graph<V>, s: V, visited: set<V>, queue: seq<Pending<V>>,
                         level: map<V, nat>, floor: nat, mid: nat, queue': seq<Pending<V>>)
    requires level.Keys == visited && QueueLevels(level, queue, floor, mid) && Frontier(g, visited, queue, level)
    requires |queue| > 0 && queue[0].0 !in visited && queue[0].0 in g
    requires Enqueued(queue[1..], queue', queue[0].0, g[queue[0].0] - (visited + {queue[0].0}))
    ensures Frontier(g, visited + {queue[0].0}, queue', level[queue[0].0 := EntryLevel(level, queue[0])])
  {
    var node, fl := queue[0].0, EntryLevel(level, queue[0]);
    var level' := level[node := fl];
    var n := |queue| - 1;
    assert fl >= floor;
    forall u, w | u in visited + {node} && u in g && w in g[u]
      ensures (w in visited + {node} && level'[w] <= level'[u] + 1) || (w, Some(u)) in queue'
    {
      if u == node {
        if w !in visited + {node} {
          assert (w, Some(node)) in queue'[n..];
        }
      } else if (w, Some(u)) == queue[0] {
        assert level'[w] == level[u] + 1;
      } else {
        InTail(queue, (w, Some(u)));
        if (w, Some(u)) in queue[1..] {
          assert queue[1..] == queue'[..n];
        }
      }
    }
  }

  /** The recorded paths after the first dequeue of a node: its parent's path
      followed by the node. */
  lemma VisitWitness<V>(g: Graph<V>, s: V, visited: set<V>, queue: seq<Pending<V>>,
                        level: map<V, nat>, paths: map<V, Path<V>>)
    returns (paths': map<V, Path<V>>)
    requires level.Keys == visited && QueueShape(g, s, visited, queue) && PathsWitnessed(g, s, level, paths)
    requires |queue| > 0 && queue[0].0 !in visited
    ensures PathsWitnessed(g, s, level[queue[0].0 := EntryLevel(level, queue[0])], paths')
  {
    var node := queue[0].0;
    if queue[0].1.Some? {
      var u := queue[0].1.value;
      PathAppend(g, s, paths[u], node);
      paths' := paths[node := paths[u] + [node]];
    } else {
      paths' := paths[node := []];
    }
  }

  /** Visiting the node at the front of the queue for the first time
      (main.py:68-72) keeps the invariant, with its level as the new floor. */
  lemma VisitStep<V>(g: Graph<V>, s: V, visited: set<V>, queue: seq<Pending<V>>,
                     parents: map<V, Option<V>>, level: map<V, nat>, floor: nat, mid: nat,
                     paths: map<V, Path<V>>, visited': set<V>, queue': seq<Pending<V>>, parents': map<V, Option<V>>)
    returns (paths': map<V, Path<V>>)
    requires BfsInv(g, s, visited, queue, parents, level, floor, mid, paths)
    requires |queue| > 0 && queue[0].0 !in visited && queue[0].0 in g
    requires visited' == visited + {queue[0].0} && parents' == parents[queue[0].0 := queue[0].1]
    requires Enqueued(queue[1..], queue', queue[0].0, g[queue[0].0] - visited')
    ensures BfsInv(g, s, visited', queue', parents', level[queue[0].0 := EntryLevel(level, queue[0])],
                   EntryLevel(level, queue[0]), NextMid(queue, mid), paths')
  {
    VisitTree(g, s, visited, queue, parents, level);
    VisitQueueShape(g, s, visited, queue, queue');
    VisitQueueLevels(g, s, visited, queue, level, floor, mid, queue');
    VisitFrontier(g, s, visited, queue, level, floor, mid, queue');
    paths' := VisitWitness(g, s, visited, queue, level, paths);
  }

  /** One dequeue keeps the invariant and makes progress: either a vertex
      is newly visited or the queue gets shorter. */
  lemma Step<V>(g: Graph<V>, s: V, visited: set<V>, queue: seq<Pending<V>>,
                parents: map<V, Option<V>>, level: map<V, nat>, floor: nat, mid: nat, paths: map<V, Path<V>>,
                visited': set<V>, queue': seq<Pending<V>>, parents': map<V, Option<V>>, level': map<V, nat>)
    returns (floor': nat, mid': nat, paths': map<V, Path<V>>)
    requires BfsInv(g, s, visited, queue, parents, level, floor, mid, paths)
    requires |queue| > 0 && queue[0].0 in g
    requires queue[0].0 in visited ==> visited' == visited && queue' == queue[1..] && parents' == parents
    requires queue[0].0 !in visited ==>
               && visited' == visited + {queue[0].0}
               && parents' == parents[queue[0].0 := queue[0].1]
               && Enqueued(queue[1..], queue', queue[0].0, g[queue[0].0] - visited')
    requires level' == if queue[0].0 in visited then level else level[queue[0].0 := EntryLevel(level, queue[0])]
    ensures BfsInv(g, s, visited', queue', parents', level', floor', mid', paths')
    ensures |g.Keys - visited'| < |g.Keys - visited| || (visited' == visited && |queue'| < |queue|)
  {
    var node := queue[0].0;
    floor', mid' := EntryLevel(level, queue[0]), NextMid(queue, mid);
    if node in visited {
      SkipStep(g, s, visited, queue, parents, level, floor, mid, paths, queue');
      paths' := paths;
    } else {
      paths' := VisitStep(g, s, visited, queue, parents, level, floor, mid, paths, visited', queue', parents');
      assert g.Keys - visited' == (g.Keys - visited) - {node};
    }
  }

  // The visit order. `order` lists the visited vertices in the order they
  // were first dequeued. Because the queue is first-in first-out, the pair
  // that visits a vertex comes from the earliest vertex in that order with
  // an edge to it.

  /** order[k] is the first vertex of order with an edge to w. */
  ghost predicate FirstDiscoverer<V>(g: Graph<V>, order: seq<V>, w: V, k: int) {
    && 0 <= k < |order| && order[k] in g && w in g[order[k]]
    && forall j | 0 <= j < k :: order[j] in g ==> w !in g[order[j]]
  }

  /** The queue holds (w, Some(u)), and every pair for w ahead of it also
      names u as parent. */
  ghost predicate LeadingPair<V>(queue: seq<Pending<V>>, w: V, u: V) {
    exists i :: 0 <= i < |queue| && queue[i] == (w, Some(u))
      && forall j | 0 <= j < i && queue[j].0 == w :: queue[j].1 == Some(u)
  }

  /** Every key but s has the first vertex of order with an edge to it as
      its parent. */
  ghost predicate ParentsFirst<V>(g: Graph<V>, s: V, parents: map<V, Option<V>>, order: seq<V>) {
    forall v | v in parents && v != s :: exists k :: FirstDiscoverer(g, order, v, k) && parents[v] == Some(order[k])
  }

  /** Every vertex discovered but not yet visited has its first discoverer's
      pair ahead of its other pairs in the queue. */
  ghost predicate DiscoveredLeading<V(!new)>(g: Graph<V>, visited: set<V>, queue: seq<Pending<V>>, order: seq<V>) {
    forall w, k | w !in visited && FirstDiscoverer(g, order, w, k) :: LeadingPair(queue, w, order[k])
  }

  /** Vertices after s are visited in the order of their first
      discoverers: a later vertex never has an earlier first discoverer. */
  ghost predicate DiscoverersSorted<V>(g: Graph<V>, order: seq<V>) {
    forall i, j, ki, kj | 0 < i < j < |order| && FirstDiscoverer(g, order, order[i], ki)
                          && FirstDiscoverer(g, order, order[j], kj) :: ki <= kj
  }

  lemma DiscoverersInOrder<V>(g: Graph<V>, order: seq<V>, i: int, j: int, ki: int, kj: int)
    requires DiscoverersSorted(g, order) && 0 < i < j < |order|
    requires FirstDiscoverer(g, order, order[i], ki) && FirstDiscoverer(g, order, order[j], kj)
    ensures ki <= kj
  {
  }

  /**
   What bfs_path promises about the order it visits vertices in: order lists
   the keys of parents once each, s first, with hop counts never decreasing
   along it; the parent of every other key is the first vertex of order
   with an edge to it; and the vertices after s come in the order of those
   first discoverers, as a first-in first-out queue hands them out.
   */
  ghost predicate IsBfsOrder<V(!new)>(g: Graph<V>, s: V, parents: map<V, Option<V>>, order: seq<V>) {
    && |order| > 0 && order[0] == s
    && (forall i | 0 <= i < |order| :: order[i] in parents)
    && (forall v | v in parents :: v in order)
    && (forall i, j | 0 <= i < j < |order| :: order[i] != order[j])
    && (forall i, j, m, n | 0 <= i < j < |order| && MinHops(g, s, order[i], m) && MinHops(g, s, order[j], n) :: m <= n)
    && ParentsFirst(g, s, parents, order)
    && DiscoverersSorted(g, order)
  }

  /** The visit order so far: the visited vertices once each, s first, levels
      never decreasing, every parent the first discoverer, and every
      discovered but unvisited vertex with its first discoverer's pair ahead
      of its other pairs in the queue. */
  ghost predicate OrderInv<V(!new)>(g: Graph<V>, s: V, visited: set<V>, queue: seq<Pending<V>>,
                              parents: map<V, Option<V>>, level: map<V, nat>, order: seq<V>)
  {
    && (forall i | 0 <= i < |order| :: order[i] in visited && order[i] in level)
    && (forall v | v in visited :: v in order)
    && (forall i, j | 0 <= i < j < |order| :: order[i] != order[j])
    && (|order| > 0 ==> order[0] == s)
    && (forall i, j | 0 <= i < j < |order| :: level[order[i]] <= level[order[j]])
    && ParentsFirst(g, s, parents, order)
    && DiscoveredLeading(g, visited, queue, order)
  }

  /** A vertex of order with an edge to w has a first such vertex at or
      before it. */
  lemma {:induction false} FirstDiscovererExists<V>(g: Graph<V>, order: seq<V>, w: V, m: nat)
    requires m < |order| && order[m] in g && w in g[order[m]]
    ensures exists k :: k <= m && FirstDiscoverer(g, order, w, k)
    decreases m
  {
    if forall j | 0 <= j < m :: order[j] in g ==> w !in g[order[j]] {
      assert FirstDiscoverer(g, order, w, m);
    } else {
      var j :| 0 <= j < m && order[j] in g && w in g[order[j]];
      FirstDiscovererExists(g, order, w, j);
    }
  }

  /** Two vertices with the same in-neighbours have the same first
      discoverer. */
  lemma SameDiscoverer<V>(g: Graph<V>, order: seq<V>, w: V, x: V, k1: int, k2: int)
    requires FirstDiscoverer(g, order, w, k1) && FirstDiscoverer(g, order, x, k2)
    requires forall u | u in g :: w in g[u] <==> x in g[u]
    ensures k1 == k2
  {
  }

  /** The first discoverer of w comes no later than any vertex of the order
      with an edge to w. */
  lemma DiscoveredNoLater<V>(g: Graph<V>, order: seq<V>, w: V, k: int, j: int)
    requires FirstDiscoverer(g, order, w, k)
    requires 0 <= j < |order| && order[j] in g && w in g[order[j]]
    ensures k <= j
  {
  }

  /** Appending to the order does not change who discovered w first among
      the earlier vertices. */
  lemma FirstDiscovererPrefix<V>(g: Graph<V>, order: seq<V>, x: V, w: V, k: int)
    requires 0 <= k < |order|
    ensures FirstDiscoverer(g, order, w, k) <==> FirstDiscoverer(g, order + [x], w, k)
  {
    assert forall j | 0 <= j <= k :: (order + [x])[j] == order[j];
  }

  lemma LeadingPairTail<V>(queue: seq<Pending<V>>, w: V, u: V)
    requires LeadingPair(queue, w, u) && |queue| > 0 && queue[0].0 != w
    ensures LeadingPair(queue[1..], w, u)
  {
    var i :| 0 <= i < |queue| && queue[i] == (w, Some(u))
             && forall j | 0 <= j < i && queue[j].0 == w :: queue[j].1 == Some(u);
    var q := queue[1..];
    assert q[i - 1] == queue[i];
    forall j | 0 <= j < i - 1 && q[j].0 == w
      ensures q[j].1 == Some(u)
    {
      assert q[j] == queue[j + 1];
    }
  }

  lemma LeadingPairAppend<V>(queue: seq<Pending<V>>, more: seq<Pending<V>>, w: V, u: V)
    requires LeadingPair(queue, w, u)
    ensures LeadingPair(queue + more, w, u)
  {
    var i :| 0 <= i < |queue| && queue[i] == (w, Some(u))
             && forall j | 0 <= j < i && queue[j].0 == w :: queue[j].1 == Some(u);
    var q := queue + more;
    assert q[i] == queue[i];
    forall j | 0 <= j < i && q[j].0 == w
      ensures q[j].1 == Some(u)
    {
      assert q[j] == queue[j];
    }
  }

  /** The order part of the invariant after dropping a visited pair. */
  lemma OrderSkip<V(!new)>(g: Graph<V>, s: V, visited: set<V>, queue: seq<Pending<V>>,
                     parents: map<V, Option<V>>, level: map<V, nat>, order: seq<V>)
    requires OrderInv(g, s, visited, queue, parents, level, order)
    requires |queue| > 0 && queue[0].0 in visited
    ensures OrderInv(g, s, visited, queue[1..], parents, level, order)
  {
    forall w, k | w !in visited && FirstDiscoverer(g, order, w, k)
      ensures LeadingPair(queue[1..], w, order[k])
    {
      LeadingPairTail(queue, w, order[k]);
    }
  }

  /** Visiting a node appends it to the order; its level is at least every
      earlier one, since the queue's head sits at the deepest level so far. */
  lemma OrderVisitList<V(!new)>(g: Graph<V>, s: V, visited: set<V>, queue: seq<Pending<V>>,
                          parents: map<V, Option<V>>, level: map<V, nat>, floor: nat, mid: nat, order: seq<V>)
    requires level.Keys == visited && QueueShape(g, s, visited, queue) && QueueLevels(level, queue, floor, mid)
    requires OrderInv(g, s, visited, queue, parents, level, order)
    requires |queue| > 0 && queue[0].0 !in visited
    ensures var node, order' := queue[0].0, order + [queue[0].0];
            var level' := level[node := EntryLevel(level, queue[0])];
            && (forall i | 0 <= i < |order'| :: order'[i] in visited + {node} && order'[i] in level')
            && (forall v | v in visited + {node} :: v in order')
            && (forall i, j | 0 <= i < j < |order'| :: order'[i] != order'[j])
            && (|order'| > 0 ==> order'[0] == s)
            && (forall i, j | 0 <= i < j < |order'| :: level'[order'[i]] <= level'[order'[j]])
  {
    var node, order' := queue[0].0, order + [queue[0].0];
    var fl := EntryLevel(level, queue[0]);
    var level' := level[node := fl];
    assert fl >= floor;
    forall i, j | 0 <= i < j < |order'|
      ensures order'[i] != order'[j] && level'[order'[i]] <= level'[order'[j]]
    {
      assert order'[i] == order[i];
      if j < |order| {
        assert order'[j] == order[j];
      }
    }
    if |order| == 0 {
      assert visited == {};
    }
  }

  /** The parent recorded on visiting a node is its first discoverer: the
      head pair is the leading pair for its node. */
  lemma OrderVisitParents<V(!new)>(g: Graph<V>, s: V, visited: set<V>, queue: seq<Pending<V>>,
                                   parents: map<V, Option<V>>, order: seq<V>,
                                   parents': map<V, Option<V>>, order': seq<V>)
    requires QueueShape(g, s, visited, queue) && (forall v | v in visited :: v in order)
    requires ParentsFirst(g, s, parents, order) && DiscoveredLeading(g, visited, queue, order)
    requires |queue| > 0 && queue[0].0 !in visited
    requires parents' == parents[queue[0].0 := queue[0].1] && order' == order + [queue[0].0]
    ensures ParentsFirst(g, s, parents', order')
  {
    var node := queue[0].0;
    forall v | v in parents' && v != s
      ensures exists k :: FirstDiscoverer(g, order', v, k) && parents'[v] == Some(order'[k])
    {
      var k;
      if v == node {
        k := HeadParentFirst(g, s, visited, queue, order);
      } else {
        k :| FirstDiscoverer(g, order, v, k) && parents[v] == Some(order[k]);
      }
      FirstDiscovererPrefix(g, order, node, v, k);
      assert order'[k] == order[k];
    }
  }

  /** The head pair of the queue, for a vertex not yet visited other than s,
      names the first discoverer of its vertex. */
  lemma HeadParentFirst<V(!new)>(g: Graph<V>, s: V, visited: set<V>, queue: seq<Pending<V>>, order: seq<V>)
    returns (k: int)
    requires QueueShape(g, s, visited, queue) && (forall v | v in visited :: v in order)
    requires DiscoveredLeading(g, visited, queue, order)
    requires |queue| > 0 && queue[0].0 !in visited && queue[0].0 != s
    ensures FirstDiscoverer(g, order, queue[0].0, k) && queue[0].1 == Some(order[k])
  {
    var node, u := queue[0].0, queue[0].1.value;
    var m :| 0 <= m < |order| && order[m] == u;
    FirstDiscovererExists(g, order, node, m);
    k :| k <= m && FirstDiscoverer(g, order, node, k);
    var i :| 0 <= i < |queue| && queue[i] == (node, Some(order[k]))
             && forall j | 0 <= j < i && queue[j].0 == node :: queue[j].1 == Some(order[k]);
  }

  /** A vertex first discovered by the node just visited has no pair ahead
      of the ones that node queues: every earlier pair names a parent that
      has no edge to it. */
  lemma NewLeadingPair<V>(g: Graph<V>, s: V, visited: set<V>, queue: seq<Pending<V>>,
                          order: seq<V>, queue': seq<Pending<V>>, w: V)
    requires (visited != {} ==> s in visited) && QueueShape(g, s, visited, queue)
    requires forall v | v in visited :: v in order
    requires |queue| > 0 && queue[0].0 !in visited && queue[0].0 in g
    requires Enqueued(queue[1..], queue', queue[0].0, g[queue[0].0] - (visited + {queue[0].0}))
    requires w !in visited + {queue[0].0} && w in g[queue[0].0]
    requires forall j | 0 <= j < |order| :: order[j] in g ==> w !in g[order[j]]
    ensures LeadingPair(queue', w, queue[0].0)
  {
    var node, n := queue[0].0, |queue| - 1;
    var pairs := queue'[n..];
    forall j | 0 <= j < n
      ensures queue'[j].0 != w
    {
      var e := queue[j + 1];
      assert queue'[j] == e;
      if e.1.Some? {
        var u := e.1.value;
        var m :| 0 <= m < |order| && order[m] == u;
      }
    }
    assert (w, Some(node)) in pairs;
    var t :| 0 <= t < |pairs| && pairs[t] == (w, Some(node));
    assert queue'[n + t] == pairs[t];
    forall j | 0 <= j < n + t && queue'[j].0 == w
      ensures queue'[j].1 == Some(node)
    {
      assert queue'[j] == pairs[j - n];
    }
  }

  /** The leading pairs after the first dequeue of a node. */
  lemma OrderVisitLeading<V(!new)>(g: Graph<V>, s: V, visited: set<V>, queue: seq<Pending<V>>,
                             parents: map<V, Option<V>>, level: map<V, nat>, order: seq<V>, queue': seq<Pending<V>>)
    requires (visited != {} ==> s in visited) && QueueShape(g, s, visited, queue)
    requires OrderInv(g, s, visited, queue, parents, level, order)
    requires |queue| > 0 && queue[0].0 !in visited && queue[0].0 in g
    requires Enqueued(queue[1..], queue', queue[0].0, g[queue[0].0] - (visited + {queue[0].0}))
    ensures var node, order' := queue[0].0, order + [queue[0].0];
            forall w, k | w !in visited + {node} && FirstDiscoverer(g, order', w, k) :: LeadingPair(queue', w, order'[k])
  {
    var node, order' := queue[0].0, order + [queue[0].0];
    var n := |queue| - 1;
    assert queue' == queue[1..] + queue'[n..];
    forall w, k | w !in visited + {node} && FirstDiscoverer(g, order', w, k)
      ensures LeadingPair(queue', w, order'[k])
    {
      if k < |order| {
        FirstDiscovererPrefix(g, order, node, w, k);
        assert order'[k] == order[k];
        LeadingPairTail(queue, w, order[k]);
        LeadingPairAppend(queue[1..], queue'[n..], w, order[k]);
      } else {
        assert forall j | 0 <= j < |order| :: order'[j] == order[j];
        NewLeadingPair(g, s, visited, queue, order, queue', w);
      }
    }
  }

  /** One dequeue keeps the order part of the invariant; a visit appends the
      node to the order. */
  lemma OrderStep<V(!new)>(g: Graph<V>, s: V, visited: set<V>, queue: seq<Pending<V>>,
                     parents: map<V, Option<V>>, level: map<V, nat>, floor: nat, mid: nat, paths: map<V, Path<V>>,
                     order: seq<V>, visited': set<V>, queue': seq<Pending<V>>, parents': map<V, Option<V>>,
                     order': seq<V>)
    requires BfsInv(g, s, visited, queue, parents, level, floor, mid, paths)
    requires OrderInv(g, s, visited, queue, parents, level, order)
    requires |queue| > 0 && queue[0].0 in g
    requires queue[0].0 in visited ==> order' == order
    requires queue[0].0 !in visited ==> order' == order + [queue[0].0]
    requires queue[0].0 in visited ==> visited' == visited && queue' == queue[1..] && parents' == parents
    requires queue[0].0 !in visited ==>
               && visited' == visited + {queue[0].0}
               && parents' == parents[queue[0].0 := queue[0].1]
               && Enqueued(queue[1..], queue', queue[0].0, g[queue[0].0] - visited')
    ensures OrderInv(g, s, visited', queue', parents',
                     if queue[0].0 in visited then level else level[queue[0].0 := EntryLevel(level, queue[0])], order')
  {
    if queue[0].0 in visited {
      OrderSkip(g, s, visited, queue, parents, level, order);
    } else {
      OrderVisitList(g, s, visited, queue, parents, level, floor, mid, order);
      OrderVisitParents(g, s, visited, queue, parents, order, parents', order');
      OrderVisitLeading(g, s, visited, queue, parents, level, order, queue');
    }
  }

  // First-in first-out. Pairs are queued behind all others, so the parents
  // of the queued pairs sit at non-decreasing positions of the order, and
  // no visited vertex has a later first discoverer than any queued pair's
  // parent. Together these keep the visits in first-discoverer order.

  /** The parents of the queued pairs appear in order at non-decreasing
      positions along the queue. */
  ghost predicate QueueSorted<V>(queue: seq<Pending<V>>, order: seq<V>) {
    forall i, j, ki, kj | 0 <= i < j < |queue| && 0 <= ki < |order| && 0 <= kj < |order|
                          && queue[i].1 == Some(order[ki]) && queue[j].1 == Some(order[kj]) :: ki <= kj
  }

  /** Every visited vertex after s was first discovered no later than the
      parent of any queued pair. */
  ghost predicate VisitedAhead<V>(g: Graph<V>, queue: seq<Pending<V>>, order: seq<V>) {
    forall i, ki, q, kq | 0 < i < |order| && FirstDiscoverer(g, order, order[i], ki)
                          && 0 <= q < |queue| && 0 <= kq < |order| && queue[q].1 == Some(order[kq]) :: ki <= kq
  }

  ghost predicate FifoInv<V>(g: Graph<V>, queue: seq<Pending<V>>, order: seq<V>) {
    DiscoverersSorted(g, order) && QueueSorted(queue, order) && VisitedAhead(g, queue, order)
  }

  lemma FirstDiscovererUnique<V>(g: Graph<V>, order: seq<V>, w: V, k1: int, k2: int)
    requires FirstDiscoverer(g, order, w, k1) && FirstDiscoverer(g, order, w, k2)
    ensures k1 == k2
  {
  }

  /** A key other than s was first discovered before the last vertex of the
      order. */
  lemma VisitedDiscoverer<V>(g: Graph<V>, s: V, parents: map<V, Option<V>>, order: seq<V>, x: V, w: V, k: int)
    requires ParentsFirst(g, s, parents, order) && w in parents && w != s
    requires FirstDiscoverer(g, order + [x], w, k)
    ensures k < |order| && FirstDiscoverer(g, order, w, k)
  {
    var k' :| FirstDiscoverer(g, order, w, k') && parents[w] == Some(order[k']);
    FirstDiscovererPrefix(g, order, x, w, k');
    FirstDiscovererUnique(g, order + [x], w, k, k');
  }

  /** The node at the head of the queue, visited now, was first discovered
      by the parent it is queued with. */
  lemma HeadDiscoverer<V(!new)>(g: Graph<V>, s: V, visited: set<V>, queue: seq<Pending<V>>,
                                parents: map<V, Option<V>>, order: seq<V>)
    returns (k: int)
    requires QueueShape(g, s, visited, queue) && (forall v | v in visited :: v in order)
    requires DiscoveredLeading(g, visited, queue, order)
    requires |queue| > 0 && queue[0].0 !in visited && queue[0].0 != s
    ensures 0 <= k < |order| && queue[0].1 == Some(order[k])
    ensures FirstDiscoverer(g, order + [queue[0].0], queue[0].0, k)
  {
    k := HeadParentFirst(g, s, visited, queue, order);
    FirstDiscovererPrefix(g, order, queue[0].0, queue[0].0, k);
  }

  /** The facts about the order and the queue the first-in first-out steps
      need. */
  ghost predicate FifoFrame<V>(g: Graph<V>, s: V, visited: set<V>, queue: seq<Pending<V>>,
                               parents: map<V, Option<V>>, order: seq<V>)
  {
    && parents.Keys == visited && QueueShape(g, s, visited, queue)
    && (forall i | 0 <= i < |order| :: order[i] in visited)
    && (forall v | v in visited :: v in order)
    && (forall i, j | 0 <= i < j < |order| :: order[i] != order[j])
    && (|order| > 0 ==> order[0] == s)
    && ParentsFirst(g, s, parents, order)
  }

  /** The first discoverer of a vertex of the extended order after s: an
      earlier vertex of the order, and for the node visited now the parent
      it is queued with. */
  lemma ExtendedDiscoverer<V(!new)>(g: Graph<V>, s: V, visited: set<V>, queue: seq<Pending<V>>,
                                    parents: map<V, Option<V>>, order: seq<V>, i: int, ki: int)
    requires FifoFrame(g, s, visited, queue, parents, order) && DiscoveredLeading(g, visited, queue, order)
    requires |queue| > 0 && queue[0].0 !in visited
    requires 0 < i < |order| + 1 && FirstDiscoverer(g, order + [queue[0].0], (order + [queue[0].0])[i], ki)
    ensures 0 <= ki < |order|
    ensures i < |order| ==> FirstDiscoverer(g, order, order[i], ki)
    ensures i == |order| ==> queue[0].1 == Some(order[ki])
  {
    var node, order' := queue[0].0, order + [queue[0].0];
    if i < |order| {
      assert order'[i] == order[i] && order[i] != order[0];
      VisitedDiscoverer(g, s, parents, order, node, order[i], ki);
    } else {
      var k := HeadDiscoverer(g, s, visited, queue, parents, order);
      FirstDiscovererUnique(g, order', node, k, ki);
    }
  }

  /** Visits stay in first-discoverer order: the node visited now was
      discovered no earlier than any vertex visited before. */
  lemma FifoVisitSorted<V(!new)>(g: Graph<V>, s: V, visited: set<V>, queue: seq<Pending<V>>,
                                 parents: map<V, Option<V>>, order: seq<V>)
    requires FifoFrame(g, s, visited, queue, parents, order) && DiscoveredLeading(g, visited, queue, order)
    requires DiscoverersSorted(g, order) && VisitedAhead(g, queue, order)
    requires |queue| > 0 && queue[0].0 !in visited
    ensures DiscoverersSorted(g, order + [queue[0].0])
  {
    var order' := order + [queue[0].0];
    forall i, j, ki, kj | 0 < i < j < |order'| && FirstDiscoverer(g, order', order'[i], ki)
                          && FirstDiscoverer(g, order', order'[j], kj)
      ensures ki <= kj
    {
      ExtendedDiscoverer(g, s, visited, queue, parents, order, i, ki);
      ExtendedDiscoverer(g, s, visited, queue, parents, order, j, kj);
    }
  }

  /** A queued pair whose parent is order'[k], for the order extended by a
      node not yet visited, names a vertex that was visited before. */
  lemma OldParentPosition<V>(g: Graph<V>, s: V, visited: set<V>, queue: seq<Pending<V>>, order: seq<V>,
                             node: V, q: int, k: int)
    requires QueueShape(g, s, visited, queue) && node !in visited
    requires 0 <= q < |queue| && 0 <= k < |order| + 1 && queue[q].1 == Some((order + [node])[k])
    ensures k < |order| && queue[q].1 == Some(order[k])
  {
  }

  /** The node visited now has position |order| in the extended order. */
  lemma NewParentPosition<V>(order: seq<V>, node: V, k: int)
    requires node !in order && 0 <= k < |order| + 1 && (order + [node])[k] == node
    ensures k == |order|
  {
  }

  /** Where the parent of a pair queued after a visit sits in the extended
      order: the pairs left from before name an earlier vertex, the pairs
      just queued name the node visited now. */
  lemma QueuedParentPosition<V>(g: Graph<V>, s: V, visited: set<V>, queue: seq<Pending<V>>, order: seq<V>,
                                queue': seq<Pending<V>>, q: int, kq: int)
    requires QueueShape(g, s, visited, queue) && (forall i | 0 <= i < |order| :: order[i] in visited)
    requires |queue| > 0 && queue[0].0 !in visited && queue[0].0 in g
    requires Enqueued(queue[1..], queue', queue[0].0, g[queue[0].0] - (visited + {queue[0].0}))
    requires 0 <= q < |queue'| && 0 <= kq < |order| + 1 && queue'[q].1 == Some((order + [queue[0].0])[kq])
    ensures q >= |queue| - 1 ==> kq == |order|
    ensures q < |queue| - 1 ==> kq < |order| && queue[q + 1].1 == Some(order[kq])
  {
    var node, m := queue[0].0, |queue| - 1;
    assert node !in order;
    if q >= m {
      assert queue'[q] == queue'[m..][q - m];
      NewParentPosition(order, node, kq);
    } else {
      assert queue'[q] == queue[q + 1];
      OldParentPosition(g, s, visited, queue, order, node, q + 1, kq);
    }
  }

  /** The queue stays sorted by parent position: the pairs a visit appends
      name the newest vertex of the order. */
  lemma FifoVisitQueue<V>(g: Graph<V>, s: V, visited: set<V>, queue: seq<Pending<V>>,
                          order: seq<V>, queue': seq<Pending<V>>)
    requires QueueShape(g, s, visited, queue) && QueueSorted(queue, order)
    requires forall i | 0 <= i < |order| :: order[i] in visited
    requires |queue| > 0 && queue[0].0 !in visited && queue[0].0 in g
    requires Enqueued(queue[1..], queue', queue[0].0, g[queue[0].0] - (visited + {queue[0].0}))
    ensures QueueSorted(queue', order + [queue[0].0])
  {
    var order' := order + [queue[0].0];
    forall i, j, ki, kj | 0 <= i < j < |queue'| && 0 <= ki < |order'| && 0 <= kj < |order'|
                          && queue'[i].1 == Some(order'[ki]) && queue'[j].1 == Some(order'[kj])
      ensures ki <= kj
    {
      QueuedParentPosition(g, s, visited, queue, order, queue', i, ki);
      QueuedParentPosition(g, s, visited, queue, order, queue', j, kj);
    }
  }

  /** Every visited vertex, the node visited now included, was discovered no
      later than the parents of the pairs left in the queue. */
  lemma FifoVisitAhead<V(!new)>(g: Graph<V>, s: V, visited: set<V>, queue: seq<Pending<V>>,
                                parents: map<V, Option<V>>, order: seq<V>, queue': seq<Pending<V>>)
    requires FifoFrame(g, s, visited, queue, parents, order) && DiscoveredLeading(g, visited, queue, order)
    requires QueueSorted(queue, order) && VisitedAhead(g, queue, order)
    requires |queue| > 0 && queue[0].0 !in visited && queue[0].0 in g
    requires Enqueued(queue[1..], queue', queue[0].0, g[queue[0].0] - (visited + {queue[0].0}))
    ensures VisitedAhead(g, queue', order + [queue[0].0])
  {
    var order' := order + [queue[0].0];
    forall i, ki, q, kq | 0 < i < |order'| && FirstDiscoverer(g, order', order'[i], ki)
                          && 0 <= q < |queue'| && 0 <= kq < |order'| && queue'[q].1 == Some(order'[kq])
      ensures ki <= kq
    {
      ExtendedDiscoverer(g, s, visited, queue, parents, order, i, ki);
      QueuedParentPosition(g, s, visited, queue, order, queue', q, kq);
    }
  }

  /** Dropping a visited pair keeps the first-in first-out invariant. */
  lemma FifoSkip<V>(g: Graph<V>, queue: seq<Pending<V>>, order: seq<V>)
    requires FifoInv(g, queue, order) && |queue| > 0
    ensures FifoInv(g, queue[1..], order)
  {
    var queue' := queue[1..];
    forall i, j, ki, kj | 0 <= i < j < |queue'| && 0 <= ki < |order| && 0 <= kj < |order|
                          && queue'[i].1 == Some(order[ki]) && queue'[j].1 == Some(order[kj])
      ensures ki <= kj
    {
      assert queue'[i] == queue[i + 1] && queue'[j] == queue[j + 1];
    }
    forall i, ki, q, kq | 0 < i < |order| && FirstDiscoverer(g, order, order[i], ki)
                          && 0 <= q < |queue'| && 0 <= kq < |order| && queue'[q].1 == Some(order[kq])
      ensures ki <= kq
    {
      assert queue'[q] == queue[q + 1];
    }
  }

  /**
   One dequeue keeps the first-in first-out invariant: vertices are visited
   in the order of their first discoverers, and pairs leave the queue in the
   order their parents were visited.
   */
  lemma FifoStep<V(!new)>(g: Graph<V>, s: V, visited: set<V>, queue: seq<Pending<V>>,
                          parents: map<V, Option<V>>, order: seq<V>, queue': seq<Pending<V>>, order': seq<V>)
    requires FifoFrame(g, s, visited, queue, parents, order) && DiscoveredLeading(g, visited, queue, order)
    requires FifoInv(g, queue, order)
    requires |queue| > 0 && queue[0].0 in g
    requires queue[0].0 in visited ==> queue' == queue[1..]
    requires queue[0].0 !in visited ==> Enqueued(queue[1..], queue', queue[0].0, g[queue[0].0] - (visited + {queue[0].0}))
    requires order' == if queue[0].0 in visited then order else order + [queue[0].0]
    ensures FifoInv(g, queue', order')
  {
    if queue[0].0 in visited {
      FifoSkip(g, queue, order);
    } else {
      FifoVisitSorted(g, s, visited, queue, parents, order);
      FifoVisitQueue(g, s, visited, queue, order, queue');
      FifoVisitAhead(g, s, visited, queue, parents, order, queue');
    }
  }

  /** Once the queue is empty the visit order has the properties bfs_path
      promises: levels are hop counts, so they never decrease along it. */
  lemma OrderFinish<V(!new)>(g: Graph<V>, s: V, visited: set<V>, parents: map<V, Option<V>>,
                             level: map<V, nat>, order: seq<V>)
    requires parents.Keys == visited && level.Keys == visited && QueueShape(g, s, visited, [])
    requires visited != {} ==> s in visited
    requires OrderInv(g, s, visited, [], parents, level, order) && DiscoverersSorted(g, order)
    requires forall v | v in level :: MinHops(g, s, v, level[v])
    ensures IsBfsOrder(g, s, parents, order)
  {
    assert s in order;
    forall i, j, m, n | 0 <= i < j < |order| && MinHops(g, s, order[i], m) && MinHops(g, s, order[j], n)
      ensures m <= n
    {
      MinHopsUnique(g, s, order[i], m, level[order[i]]);
      MinHopsUnique(g, s, order[j], n, level[order[j]]);
    }
  }

  /** A tree with consistent levels has, for each vertex, a parent chain as
      long as its level. */
  lemma {:induction false} TreeChain<V>(g: Graph<V>, s: V, visited: set<V>, parents: map<V, Option<V>>,
                                        level: map<V, nat>, v: V)
    requires TreeShape(g, s, visited, parents, level) && v in visited
    ensures ChainLen(parents, v, level[v])
    decreases level[v]
  {
    if v != s {
      TreeChain(g, s, visited, parents, level, parents[v].value);
    }
  }

  /** Once the queue is empty no edge leaves the visited vertices or skips a
      level. */
  lemma FinalHopFeasible<V>(g: Graph<V>, s: V, visited: set<V>, parents: map<V, Option<V>>,
                            level: map<V, nat>)
    requires TreeShape(g, s, visited, parents, level) && QueueShape(g, s, visited, [])
    requires Frontier(g, visited, [], level)
    ensures HopFeasible(g, s, level)
  {
    assert visited != {};
    forall u, w | u in level && w in g[u]
      ensures w in level && level[w] <= level[u] + 1
    {
      assert (w, Some(u)) !in [];
    }
  }

  /** Once the queue is empty the levels form a feasible hop table, which
      makes them shortest and the parents a shortest-path tree. */
  lemma BfsFinish<V(!new)>(g: Graph<V>, s: V, visited: set<V>, parents: map<V, Option<V>>,
                        level: map<V, nat>, floor: nat, mid: nat, paths: map<V, Path<V>>)
    requires BfsInv(g, s, visited, [], parents, level, floor, mid, paths)
    ensures IsBfsTree(g, s, parents)
    ensures forall v | v in level :: MinHops(g, s, v, level[v])
  {
    FinalHopFeasible(g, s, visited, parents, level);
    forall p | IsPath(g, s, p)
      ensures PathEnd(s, p) in parents
    {
      HopBound(g, s, level, p);
    }
    forall v | v in parents
      ensures PathReaches(g, s, v)
      ensures ChainLen(parents, v, level[v]) && MinHops(g, s, v, level[v])
    {
      assert IsPath(g, s, paths[v]);
      TreeChain(g, s, visited, parents, level, v);
      forall p | IsPath(g, s, p) && PathEnd(s, p) == v
        ensures level[v] <= |p|
      {
        HopBound(g, s, level, p);
      }
    }
  }

  /**
   bfs_path (main.py:55-74). Starting from the queue [(source, None)],
   repeatedly dequeue a pair and, the first time its node comes off the
   queue, record its parent and queue its unvisited neighbours.
   */
  method BfsPath<V(==,!new)>(graph: Graph<V>, source: V) returns (parents: map<V, Option<V>>, ghost order: seq<V>)
    requires PathsStayInGraph(graph, source)
    ensures IsBfsTree(graph, source, parents)
    ensures IsBfsOrder(graph, source, parents, order)
  {
    var visited: set<V> := {};
    var queue: seq<Pending<V>> := [(source, None)];
    parents := map[];
    ghost var level: map<V, nat> := map[];
    ghost var floor: nat := 0;
    ghost var mid: nat := 1;
    ghost var paths: map<V, Path<V>> := map[];
    order := [];
    BfsStartInv(graph, source);
    while |queue| > 0
      invariant BfsInv(graph, source, visited, queue, parents, level, floor, mid, paths)
      invariant OrderInv(graph, source, visited, queue, parents, level, order)
      invariant FifoInv(graph, queue, order)
      decreases |graph.Keys - visited|, |queue|
    {
      HeadInGraph(graph, source, visited, queue, level, paths);
      var visited', queue', parents' := Dequeue(graph, visited, queue, parents);
      ghost var order' := if queue[0].0 in visited then order else order + [queue[0].0];
      OrderStep(graph, source, visited, queue, parents, level, floor, mid, paths, order,
                visited', queue', parents', order');
      FifoStep(graph, source, visited, queue, parents, order, queue', order');
      ghost var level' := if queue[0].0 in visited then level else level[queue[0].0 := EntryLevel(level, queue[0])];
      floor, mid, paths := Step(graph, source, visited, queue, parents, level, floor, mid, paths,
                                visited', queue', parents', level');
      visited, queue, parents, level, order := visited', queue', parents', level', order';
    }
    BfsFinish(graph, source, visited, parents, level, floor, mid, paths);
    OrderFinish(graph, source, visited, parents, level, order);
  }
}
