# Shortest-path routines of main.py, modelled in Dafny

main.py holds three graph routines:

- `shortest_shortest_path`: Dijkstra's algorithm. Its priority is the pair
  (total weight, edge count), compared lexicographically. It returns, for
  every vertex, the lightest weight of a walk from the source and the fewest
  edges among the walks of that weight.
- `bfs_path`: a breadth-first search. It records, for every vertex reached,
  the parent the vertex was first dequeued with.
- `get_path`: follows those parent links back from a destination and
  returns the vertices before it, root first.

The model keeps the algorithms as they are written, as Dafny methods with
loop invariants:

- the dictionaries become `map`s;
- the adjacency sets become `set`s;
- the heap becomes a `multiset` of entries;
- the deque becomes a `seq` used as a FIFO queue.

Each method is proved against a functional specification of walks and paths:

- `IsShortestShortest`: the lexicographically least (weight, edges) label
  over all walks;
- `IsBfsTree`: a parent tree whose chains are as long as the fewest hops;
- `IsBfsOrder`: a visit order in which each parent is the first vertex with
  an edge to its child, and the vertices after the source come in the order
  of those first discoverers, as a first-in first-out queue hands them out;
- `Ancestors`: the parent chain, root first.

Modules and files:

- `options.dfy` (`Options`): `Option`, standing for Python's `None`.
- `weighted_graphs.dfy` (`WeightedGraphs`): weighted graphs and walks.
  - `Dist` is a finite weight or infinity, in place of `float('inf')`.
  - `Label` is the (dist, edges) pair and its lexicographic order.
  - A feasible potential table bounds every walk from below.
- `lex_dijkstra.dfy` (`LexDijkstra`): `shortest_shortest_path`. The inner
  relaxation loop is `Expand`.
- `graphs.dfy` (`Graphs`): unweighted graphs, paths, hop counts and parent
  chains.
- `bfs.dfy` (`Bfs`): `bfs_path`. One turn of its loop is `Dequeue`, and the
  neighbour loop is `NeighbourPairs`.
- `get_path.dfy` (`PathReconstruction`): `get_path`.
- `samples.dfy` (`Samples`): the sample graphs of main.py's test functions,
  a diamond-shaped graph on which the visit order decides the parents, and a
  braid on which the first-in first-out order decides them two levels down.
  Vertices are `char`s, so the joined string `'sbc'` is the sequence `"sbc"`.

Preconditions where main.py would raise `KeyError`:

- `ShortestShortestPath` and `BfsPath` require that every vertex reachable
  from the source is a key of the graph. This is exactly the condition under
  which no lookup at main.py:22, 25, 29, 70 fails. It includes the source
  itself, the walk of no edges.
- It is weaker than "every neighbour is a key": a dangling neighbour of an
  unreachable vertex is never looked up.
- `GetPath` requires that the parent chain of the destination ends at
  `None` after finitely many links, every vertex on the way being a key.
  This is exactly what the loop at main.py:101-103 needs to terminate
  without a `KeyError`.

## Model

| member | source | states |
|---|---|---|
| LexDijkstra.ShortestShortestPath | main.py:4-34 | Under the no-KeyError precondition, the result has exactly the graph's keys and maps the source to (0, 0). Every finite label is earned by some walk from the source, and no walk to a vertex has a smaller (weight, edges) label. So a finite label is the least weight and, among the walks of that weight, the fewest edges. Unreachable vertices keep (infinity, 0). |
| LexDijkstra.SearchStartInv | main.py:15-18 | The start state satisfies the search invariant. Every key is at (infinity, 0), the source at (0, 0), and the queue holds the single entry (0, 0, source). |
| LexDijkstra.MinEntryExists | main.py:21 | A non-empty queue has an entry whose (weight, edges) key is lexicographically at most every other entry's, so `heappop` always has something to return. |
| LexDijkstra.Improves | main.py:29 | The relaxation test, "smaller distance, or equal distance with fewer edges", holds exactly when the candidate label is lexicographically strictly smaller than the current one. Infinity lies above every finite label. |
| LexDijkstra.Expand | main.py:25-32 | After relaxing every out-edge of the popped vertex, the key set is unchanged and no label increased. Each neighbour's label is at most the offer it received. A changed label is one of the offers and is queued. Every pushed entry was a strict improvement of its vertex's label. |
| LexDijkstra.DiscardStep | main.py:21-23 | Popping an entry heavier than its vertex's label, then skipping it, keeps the search invariant with that entry removed. |
| LexDijkstra.RepeatExpandIsNoop | main.py:22-32 | An entry with its vertex's weight but more edges is not skipped at main.py:22. Expanding it again changes no label and pushes nothing. |
| LexDijkstra.ExpandStep | main.py:20-32 | Expanding a popped entry that is not stale keeps the search invariant. The number of unsettled vertices shrinks, or else the queue does. |
| WeightedGraphs.PotentialBound | main.py:11-13 | A feasible table bounds every walk from below. It gives the source (0, 0), and no edge out of a finitely labelled vertex improves its target. Every walk from the source ends at a finitely labelled vertex whose label is at most the walk's (weight, edges). |
| WeightedGraphs.ClosedWalksStayInGraph | main.py:25-29 | If every neighbour named in the graph is a key, then every vertex reachable from a key source is a key, which is the search's precondition. |
| Bfs.BfsPath | main.py:55-74 | Under the no-KeyError precondition, the parent table has exactly the reachable vertices as keys. The source has parent None, and every other key has a parent that is a key with an edge to it. Following parents from any key takes exactly the fewest hops of any path to it, so the table is a shortest-path tree. There is also a visit order that lists the keys once each, starting at the source, with hop counts never decreasing along it. Every key but the source has as parent the earliest vertex of that order with an edge to it. The vertices after the source appear in the order of those first discoverers, as the first-in first-out queue hands them out: a vertex discovered by an earlier vertex is visited earlier. |
| Bfs.Dequeue | main.py:65-72 | One turn of the loop never overwrites a recorded parent. A node already visited is dropped with nothing else changed. An unvisited node is marked visited and gets the parent it was queued with. Exactly one (neighbour, node) pair per unvisited neighbour is appended behind the rest of the queue. |
| Bfs.NeighbourPairs | main.py:70-72 | The pairs queued for a node are exactly one (w, node) for each neighbour w not yet visited. |
| Bfs.Step | main.py:65-72 | One dequeue keeps the breadth-first invariant: the tree shape and the levels, with the queue holding level floor then level floor + 1. Every edge out of a visited vertex reaches a visited vertex at most one level deeper, or is still queued. Each turn visits a new vertex or shortens the queue. |
| Bfs.BfsFinish | main.py:74 | When the queue is empty the recorded levels are a feasible hop table and each is the fewest hops to its vertex, and the parent table is a shortest-path tree. |
| Bfs.HeadParentFirst | main.py:65-69 | When a vertex other than the source comes off the queue for the first time, the parent it was queued with is the earliest visited vertex with an edge to it. |
| Bfs.OrderStep | main.py:65-72 | One dequeue keeps the visit-order invariant. A first visit appends the node to the order at a level no smaller than any before it, and records its first discoverer as parent. Each vertex discovered but not visited keeps its first discoverer's pair ahead of its other pairs in the queue. |
| Bfs.FifoStep | main.py:65-72 | One dequeue keeps the first-in first-out invariant. Along the visit order, first discoverers never move backwards. The queued pairs' parents sit at non-decreasing positions of the order. Every visited vertex was first discovered no later than the parent of any queued pair. |
| Bfs.OrderFinish | main.py:74 | When the queue is empty the visit order lists the keys once each from the source, and hop counts never decrease along it. Every parent is the first discoverer, and the vertices after the source come in the order of their first discoverers. |
| Graphs.MinHopsUnique | main.py:57-59 | The fewest hops from the source to a vertex is a single number. |
| Graphs.HopBound | main.py:57-59 | A feasible hop table gives the source level 0 and raises the level by at most one along each edge. It bounds the length of every path from the source to a vertex from below. |
| Graphs.ClosedPathsStayInGraph | main.py:70 | If every neighbour named in the graph is a key, then every vertex reachable from a key source is a key. |
| Graphs.ChainLenUnique | main.py:101-103 | A parent chain that ends at None has one length only. |
| PathReconstruction.GetPath | main.py:92-106 | The result is the ancestors of the destination, root first, as many as the links in its parent chain, with the destination excluded. It is empty exactly when the destination has no parent. |
| PathReconstruction.Reverse | main.py:105 | The reversal has the same length, and its element i is element length-1-i of the input. |
| PathReconstruction.AncestorsFormPath | main.py:98-105 | In a tree of parent edges, the ancestors of v followed by v start at the source, and each vertex has an edge to the next. |
| PathReconstruction.PathOfTreeIsShortest | main.py:92-106 | On a tree built by bfs_path, get_path's vertices followed by the destination are a path from the source to the destination with the fewest hops. The result is empty exactly when the destination is the source. |
| Samples.WeightedSampleResult | main.py:36-52 | On the test graph, any shortest-shortest result is s (0, 0), a (1, 1), b (3, 2), c (4, 1), d (7, 2), and e, which nothing reaches, (infinity, 0). |
| Samples.WeightedSampleSearch | main.py:46-52 | The search on the test graph returns those labels. |
| Samples.TreeSampleResult | main.py:76-90 | On the sample graph, any breadth-first tree from s is a→s, b→s, c→b, d→c. |
| Samples.PathSampleSearch | main.py:108-111 | bfs_path and then get_path for d on the sample return the path s, b, c, joined in main.py as 'sbc'. |
| Samples.SourcePathSearch | main.py:98-106 | get_path for the source returns the empty path. |
| Samples.DiamondSharesParent | main.py:65-72 | On a diamond, where s reaches a and b and each of those reaches c and d, any table bfs_path may return gives c and d the same parent: whichever of a and b comes off the queue first discovers both. A shortest-path tree alone would also allow c under a and d under b. |
| Samples.BraidFollowsFirstSide | main.py:65-72 | On a braid, s reaches a and b, both reach y, a reaches c, b reaches d, and both c and d reach e. In any table bfs_path may return, y hangs from a exactly when e hangs from c: whichever of a and b is dequeued first also has its child dequeued first. A parent-first order alone would also allow y under a and e under d. |
| Samples.DiamondSearch | main.py:55-74 | bfs_path on the diamond returns a table with c and d under the same parent. |

## Left out

- Ties in the heap: `heapq` compares whole tuples, so entries with equal (weight, edges) come off in the order of their vertex labels. The model pops any least entry. The result does not depend on the choice, and vertex labels need not be ordered. With labels that Python cannot compare, such a tie makes `heapq` raise `TypeError`; that failure is not modelled.
- `float('inf')` is modelled as the `Infinity` case of `Dist`. No floating-point arithmetic happens on it: it is only compared.
- Weights are `nat`. With negative weights main.py may expand a vertex more than once. When a negative cycle is reachable from the source, the loop at main.py:20 never ends. Negative and fractional weights are outside the model.
- `dist` and `edges` are kept as one map of (dist, edges) labels, not two dictionaries with the same keys.
- `deque` is modelled as a `seq`. `popleft` is `queue[1..]` and `append` is concatenation.
- The iteration order of Python sets is arbitrary. The model relaxes edges and queues neighbours in any order, and the contracts hold for every order.
- `''.join` at main.py:106 is not modelled. `GetPath` returns the sequence of vertices; with `char` vertices, as in the samples, that sequence is the joined string.
- Lookups that raise `KeyError` are not modelled. Preconditions exclude them: a reachable vertex that is not a key, and a parent chain that does not end at `None`. A `get_path` whose parent chain cycles would loop forever in main.py; the precondition excludes that too.
- `get_path` with destination `None` returns the empty string in main.py. The model's destination is always a vertex.
- The test functions are not modelled as procedures that assert. Their graphs and expected values appear as lemmas and methods in `Samples`.
