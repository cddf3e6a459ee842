/**
 The sample graphs of main.py's tests (main.py:36-52, 76-90, 108-111) and
 what the three routines return on them, and a diamond on which bfs_path's
 visit order decides the parents.
 */
module Samples {
  import opened Options
  import opened WeightedGraphs
  import opened LexDijkstra
  import opened Graphs
  import opened Bfs
  import opened PathReconstruction

  /** The weighted graph of main.py:38-45. */
  function WeightedSample(): WGraph<char> {
    map['s' := {('a', 1), ('c', 4)},
        'a' := {('b', 2)},
        'b' := {('c', 1), ('d', 4)},
        'c' := {('d', 3)},
        'd' := {},
        'e' := {('d', 0)}]
  }

  /** The labels main.py:47-52 expects, with e, which nothing reaches, at
      (infinity, 0). */
  function WeightedAnswer(): map<char, Label> {
    map['s' := Label(Finite(0), 0),
        'a' := Label(Finite(1), 1),
        'b' := Label(Finite(3), 2),
        'c' := Label(Finite(4), 1),
        'd' := Label(Finite(7), 2),
        'e' := Label(Infinity, 0)]
  }

  /** The expected labels are a feasible potential for s: no edge out of a
      reached vertex offers its target anything better. */
  lemma WeightedAnswerFeasible()
    ensures Feasible(WeightedSample(), 's', WeightedAnswer())
  {
    var g, t := WeightedSample(), WeightedAnswer();
    forall u, edge: (char, nat) | u in t && t[u].dist.Finite? && u in g && edge in g[u]
      ensures edge.0 in t && LabelLe(t[edge.0], Extend(t[u], edge))
    {
      if u == 's' {
        assert edge == ('a', 1) || edge == ('c', 4);
      } else if u == 'a' {
        assert edge == ('b', 2);
      } else if u == 'b' {
        assert edge == ('c', 1) || edge == ('d', 4);
      } else if u == 'c' {
        assert edge == ('d', 3);
      }
    }
  }

  /** Hence no walk from s beats the expected labels, and none reaches e. */
  lemma WeightedAnswerIsLowerBound(p: Walk<char>)
    requires IsWalk(WeightedSample(), 's', p)
    ensures WalkEnd('s', p) in WeightedAnswer() && WalkEnd('s', p) != 'e'
    ensures LabelLe(WeightedAnswer()[WalkEnd('s', p)], CostOf(p))
  {
    WeightedAnswerFeasible();
    PotentialBound(WeightedSample(), 's', WeightedAnswer(), p);
  }

  /** A walk earning the expected label of v pins any shortest-shortest
      result at v to that label. */
  lemma PinnedBy(r: map<char, Label>, v: char, p: Walk<char>)
    requires IsShortestShortest(WeightedSample(), 's', r)
    requires IsWalk(WeightedSample(), 's', p) && WalkEnd('s', p) == v
    requires v in WeightedAnswer() && CostOf(p) == WeightedAnswer()[v]
    ensures v in r && r[v] == WeightedAnswer()[v]
  {
    var g, t := WeightedSample(), WeightedAnswer();
    assert LabelLe(r[v], CostOf(p));
    var q :| IsWalk(g, 's', q) && WalkEnd('s', q) == v && CostOf(q) == r[v];
    WeightedAnswerIsLowerBound(q);
    LabelLeAntisym(r[v], t[v]);
  }

  /** A walk from s earning the expected label of each vertex but e. */
  lemma WitnessWalk(v: char) returns (p: Walk<char>)
    requires v in WeightedAnswer() && v != 'e'
    ensures IsWalk(WeightedSample(), 's', p) && WalkEnd('s', p) == v
    ensures CostOf(p) == WeightedAnswer()[v]
  {
    p := [];
    if v == 'a' || v == 'b' {
      p := Hop(p, ('a', 1));
      if v == 'b' {
        p := Hop(p, ('b', 2));
      }
    } else if v == 'c' || v == 'd' {
      p := Hop(p, ('c', 4));
      if v == 'd' {
        p := Hop(p, ('d', 3));
      }
    }
  }

  /** A walk from s in the sample extended by one edge out of its end. */
  lemma Hop(p: Walk<char>, edge: (char, nat)) returns (q: Walk<char>)
    requires IsWalk(WeightedSample(), 's', p)
    requires WalkEnd('s', p) in WeightedSample() && edge in WeightedSample()[WalkEnd('s', p)]
    ensures q == p + [edge] && IsWalk(WeightedSample(), 's', q) && WalkEnd('s', q) == edge.0
    ensures CostOf(q) == Extend(CostOf(p), edge)
  {
    WalkAppend(WeightedSample(), 's', p, edge);
    q := p + [edge];
  }

  /** Nothing reaches e, so any shortest-shortest result leaves it at
      (infinity, 0). */
  lemma UnreachedE(r: map<char, Label>)
    requires IsShortestShortest(WeightedSample(), 's', r)
    ensures r['e'] == Label(Infinity, 0)
  {
    if r['e'].dist.Finite? {
      var q :| IsWalk(WeightedSample(), 's', q) && WalkEnd('s', q) == 'e' && CostOf(q) == r['e'];
      WeightedAnswerIsLowerBound(q);
      assert false;
    }
  }

  /**
   Any result meeting the contract of shortest_shortest_path on the sample
   is the one main.py:47-52 checks: s (0, 0), a (1, 1), b (3, 2), c (4, 1),
   d (7, 2), and e left at (infinity, 0).
   */
  lemma WeightedSampleResult(r: map<char, Label>)
    requires IsShortestShortest(WeightedSample(), 's', r)
    ensures r == WeightedAnswer()
  {
    var t := WeightedAnswer();
    forall v | v in t && v != 'e'
      ensures r[v] == t[v]
    {
      var p := WitnessWalk(v);
      PinnedBy(r, v, p);
    }
    UnreachedE(r);
  }

  /** The search of shortest_shortest_path on the sample of main.py:36-52
      returns the expected labels. */
  method WeightedSampleSearch() returns (r: map<char, Label>)
    ensures r == WeightedAnswer()
  {
    var g := WeightedSample();
    ClosedWalksStayInGraph(g, 's');
    r := ShortestShortestPath(g, 's');
    WeightedSampleResult(r);
  }

  /** The unweighted graph of get_sample_graph (main.py:76-82). */
  function UnweightedSample(): Graph<char> {
    map['s' := {'a', 'b'},
        'a' := {'b'},
        'b' := {'c'},
        'c' := {'a', 'd'},
        'd' := {}]
  }

  /** The parent table main.py:87-90 expects, with s at None. */
  function TreeAnswer(): map<char, Option<char>> {
    map['s' := None, 'a' := Some('s'), 'b' := Some('s'), 'c' := Some('b'), 'd' := Some('c')]
  }

  /** Hop counts from s in the sample. */
  function SampleLevels(): map<char, nat> {
    map['s' := 0, 'a' := 1, 'b' := 1, 'c' := 2, 'd' := 3]
  }

  /** The sample levels form a feasible hop table for s. */
  lemma SampleLevelsFeasible()
    ensures HopFeasible(UnweightedSample(), 's', SampleLevels())
  {
    var g, level := UnweightedSample(), SampleLevels();
    forall u | u in level
      ensures u in g && forall w | w in g[u] :: w in level && level[w] <= level[u] + 1
    {
      if u == 'c' {
        assert forall w | w in g[u] :: w == 'a' || w == 'd';
      }
    }
  }

  /** A path from s taking exactly the level of each sample vertex. */
  lemma WitnessPath(v: char) returns (p: Path<char>)
    requires v in SampleLevels()
    ensures IsPath(UnweightedSample(), 's', p) && PathEnd('s', p) == v
    ensures |p| == SampleLevels()[v]
  {
    var g := UnweightedSample();
    p := [];
    assert IsPath(g, 's', p);
    if v != 's' {
      var first := if v == 'a' then 'a' else 'b';
      PathAppend(g, 's', p, first);
      p := p + [first];
      if v == 'c' || v == 'd' {
        PathAppend(g, 's', p, 'c');
        p := p + ['c'];
        if v == 'd' {
          PathAppend(g, 's', p, 'd');
          p := p + ['d'];
        }
      }
    }
  }

  /** The fewest hops from s to any vertex of the sample is its level. */
  lemma HopsAreLevels(v: char, n: nat)
    requires MinHops(UnweightedSample(), 's', v, n)
    ensures v in SampleLevels() && SampleLevels()[v] == n
  {
    var g, level := UnweightedSample(), SampleLevels();
    var p :| IsPath(g, 's', p) && PathEnd('s', p) == v && |p| == n;
    SampleLevelsFeasible();
    HopBound(g, 's', level, p);
    var q := WitnessPath(v);
    assert n <= |q|;
  }

  /** In a breadth-first tree of the sample every key sits at its level,
      and its parent chain is that long. */
  lemma ChainAtLevel(parents: map<char, Option<char>>, v: char)
    requires IsBfsTree(UnweightedSample(), 's', parents) && v in parents
    ensures v in SampleLevels() && ChainLen(parents, v, SampleLevels()[v])
  {
    var n :| ChainLen(parents, v, n) && MinHops(UnweightedSample(), 's', v, n);
    HopsAreLevels(v, n);
  }

  /** In the sample, a vertex other than s has exactly one in-neighbour one
      level above it: its expected parent. */
  lemma ParentFromLevels(v: char, u: char)
    requires v in SampleLevels() && u in SampleLevels() && v != 's'
    requires SampleLevels()[u] + 1 == SampleLevels()[v]
    requires u in UnweightedSample() && v in UnweightedSample()[u]
    ensures TreeAnswer()[v] == Some(u)
  {
  }

  /** Each key of a tree of parent edges in the sample whose chains are as
      long as the levels has the parent main.py:87-90 expects. */
  lemma SampleParent(parents: map<char, Option<char>>, v: char)
    requires ParentEdges(UnweightedSample(), 's', parents)
    requires forall u | u in parents :: u in SampleLevels() && ChainLen(parents, u, SampleLevels()[u])
    requires v in parents
    ensures v in TreeAnswer() && parents[v] == TreeAnswer()[v]
  {
    var level := SampleLevels();
    if v != 's' {
      var u := parents[v].value;
      assert ChainLen(parents, u, level[v] - 1);
      ChainLenUnique(parents, u, level[u], level[v] - 1);
      ParentFromLevels(v, u);
    }
  }

  /**
   Any parent table meeting the contract of bfs_path on the sample is the
   one main.py:87-90 checks: a and b hang from s, c from b, d from c.
   */
  lemma TreeSampleResult(parents: map<char, Option<char>>)
    requires IsBfsTree(UnweightedSample(), 's', parents)
    ensures parents == TreeAnswer()
  {
    var t := TreeAnswer();
    SampleTreeCovers(parents);
    SampleTreeLevels(parents);
    forall v | v in parents
      ensures v in t && parents[v] == t[v]
    {
      SampleParent(parents, v);
    }
  }

  /** A table holding the end of every path from s has every sample vertex
      as a key. */
  lemma SampleTreeCovers(parents: map<char, Option<char>>)
    requires forall p | IsPath(UnweightedSample(), 's', p) :: PathEnd('s', p) in parents
    ensures forall v | v in TreeAnswer() :: v in parents
  {
    forall v | v in TreeAnswer()
      ensures v in parents
    {
      var p := WitnessPath(v);
    }
  }

  /** Every key of a breadth-first tree of the sample sits at its level. */
  lemma SampleTreeLevels(parents: map<char, Option<char>>)
    requires IsBfsTree(UnweightedSample(), 's', parents)
    ensures forall u | u in parents :: u in SampleLevels() && ChainLen(parents, u, SampleLevels()[u])
  {
    forall u | u in parents
      ensures u in SampleLevels() && ChainLen(parents, u, SampleLevels()[u])
    {
      ChainAtLevel(parents, u);
    }
  }

  /** The parent chain of d in the expected tree: c, b, s. */
  lemma AnswerAncestors()
    ensures ChainLen(TreeAnswer(), 'd', 3)
    ensures Ancestors(TreeAnswer(), 'd', 3) == "sbc"
  {
    var t := TreeAnswer();
    assert ChainLen(t, 's', 0);
    assert ChainLen(t, 'b', 1);
    assert ChainLen(t, 'c', 2);
    assert Ancestors(t, 's', 0) == [];
    assert Ancestors(t, 'b', 1) == ['s'];
    assert Ancestors(t, 'c', 2) == ['s', 'b'];
  }

  /**
   bfs_path followed by get_path for d on the sample (main.py:108-111)
   yields the path s, b, c, which main.py joins into 'sbc'.
   */
  method PathSampleSearch() returns (parents: map<char, Option<char>>, path: seq<char>)
    ensures parents == TreeAnswer()
    ensures path == "sbc"
  {
    var g := UnweightedSample();
    ClosedPathsStayInGraph(g, 's');
    ghost var order;
    parents, order := BfsPath(g, 's');
    TreeSampleResult(parents);
    AnswerAncestors();
    path := GetPath(parents, 'd');
  }

  /** A diamond: s reaches a and b, and each of them reaches both c and d. */
  function Diamond(): Graph<char> {
    map['s' := {'a', 'b'}, 'a' := {'c', 'd'}, 'b' := {'c', 'd'}, 'c' := {}, 'd' := {}]
  }

  /**
   On the diamond, c and d hang from the same parent: whichever of a and b
   is dequeued first discovers both. A shortest-path tree alone would also
   allow c under a and d under b.
   */
  lemma DiamondSharesParent(parents: map<char, Option<char>>, order: seq<char>)
    requires IsBfsTree(Diamond(), 's', parents) && IsBfsOrder(Diamond(), 's', parents, order)
    ensures 'c' in parents && 'd' in parents && parents['c'] == parents['d']
  {
    DiamondReached(parents);
    assert ParentsFirst(Diamond(), 's', parents, order);
    DiamondFirstParents(parents, order);
  }

  /** Any tree meeting the contract of bfs_path on the diamond reaches c and d. */
  lemma DiamondReached(parents: map<char, Option<char>>)
    requires forall p | IsPath(Diamond(), 's', p) :: PathEnd('s', p) in parents
    ensures 'c' in parents && 'd' in parents
  {
    var g := Diamond();
    assert IsPath(g, 's', []);
    PathAppend(g, 's', [], 'a');
    PathAppend(g, 's', ['a'], 'c');
    PathAppend(g, 's', ['a'], 'd');
    assert PathEnd('s', ['a', 'c']) in parents && PathEnd('s', ['a', 'd']) in parents;
  }

  /** c and d have the same in-neighbours in the diamond, hence the same
      first discoverer in any order. */
  lemma DiamondFirstParents(parents: map<char, Option<char>>, order: seq<char>)
    requires ParentsFirst(Diamond(), 's', parents, order) && 'c' in parents && 'd' in parents
    ensures parents['c'] == parents['d']
  {
    var g := Diamond();
    var kc :| FirstDiscoverer(g, order, 'c', kc) && parents['c'] == Some(order[kc]);
    var kd :| FirstDiscoverer(g, order, 'd', kd) && parents['d'] == Some(order[kd]);
    SameDiscoverer(g, order, 'c', 'd', kc, kd);
  }

  /** bfs_path on the diamond: c and d get the same parent. */
  method DiamondSearch() returns (parents: map<char, Option<char>>)
    ensures 'c' in parents && 'd' in parents && parents['c'] == parents['d']
  {
    var g := Diamond();
    ClosedPathsStayInGraph(g, 's');
    ghost var order;
    parents, order := BfsPath(g, 's');
    DiamondSharesParent(parents, order);
  }

  /**
   Two branches that meet twice: s reaches a and b, a reaches c and y, b
   reaches d and y, and c and d both reach e.
   */
  function Braid(): Graph<char> {
    map['s' := {'a', 'b'}, 'a' := {'c', 'y'}, 'b' := {'d', 'y'}, 'c' := {'e'}, 'd' := {'e'}, 'e' := {}, 'y' := {}]
  }

  /** Any tree meeting the contract of bfs_path on the braid reaches every
      vertex. */
  lemma BraidReached(parents: map<char, Option<char>>)
    requires forall p | IsPath(Braid(), 's', p) :: PathEnd('s', p) in parents
    ensures forall v | v in Braid() :: v in parents
  {
    var g := Braid();
    assert IsPath(g, 's', []);
    PathAppend(g, 's', [], 'a');
    PathAppend(g, 's', [], 'b');
    PathAppend(g, 's', ['a'], 'c');
    PathAppend(g, 's', ['a'], 'y');
    PathAppend(g, 's', ['b'], 'd');
    PathAppend(g, 's', ['a', 'c'], 'e');
    assert PathEnd('s', []) in parents && PathEnd('s', ['a']) in parents && PathEnd('s', ['b']) in parents;
    assert PathEnd('s', ['a', 'c']) in parents && PathEnd('s', ['a', 'y']) in parents;
    assert PathEnd('s', ['b', 'd']) in parents && PathEnd('s', ['a', 'c', 'e']) in parents;
  }

  /** Distinct entries of a sequence without repeats sit at one position
      each. */
  lemma PositionUnique<T>(order: seq<T>, i: int, j: int)
    requires forall i, j | 0 <= i < j < |order| :: order[i] != order[j]
    requires 0 <= i < |order| && 0 <= j < |order| && order[i] == order[j]
    ensures i == j
  {
  }

  /** The in-neighbours of y and e in the braid. */
  lemma BraidInNeighbour(x: char, v: char)
    requires x in Braid() && v in Braid()[x]
    ensures v == 'y' ==> x == 'a' || x == 'b'
    ensures v == 'e' ==> x == 'c' || x == 'd'
  {
  }

  /** The braid's edges, for either side u (with child cu) against the
      other side w (with child cw). */
  lemma BraidSides(u: char, cu: char, w: char, cw: char)
    requires || (u == 'a' && cu == 'c' && w == 'b' && cw == 'd')
             || (u == 'b' && cu == 'd' && w == 'a' && cw == 'c')
    ensures BraidShape(Braid(), 'y', 'e', u, cu, w, cw)
  {
  }

  /** y has in-neighbours u and w, cu only u, cw only w, and e has
      in-neighbours cu and cw. */
  ghost predicate BraidShape<V>(g: Graph<V>, y: V, e: V, u: V, cu: V, w: V, cw: V) {
    && u in g && w in g && cu in g && cw in g && u != w && cu != cw
    && y in g[u] && y in g[w] && cu in g[u] && cw in g[w] && e in g[cu] && e in g[cw]
    && (forall x | x in g && cu in g[x] :: x == u)
    && (forall x | x in g && cw in g[x] :: x == w)
    && (forall x | x in g && e in g[x] :: x == cu || x == cw)
  }

  /**
   If y hangs from u, then u is dequeued before w, so cu is visited before
   cw and discovers e first: e hangs from cu.
   */
  lemma BraidOneSide<V>(g: Graph<V>, s: V, parents: map<V, Option<V>>, order: seq<V>,
                        y: V, e: V, u: V, cu: V, w: V, cw: V)
    requires BraidShape(g, y, e, u, cu, w, cw) && s != cu && s != cw
    requires u in parents && w in parents && cu in parents && cw in parents && e in parents && y != s && e != s
    requires forall v | v in parents :: v in order
    requires forall i, j | 0 <= i < j < |order| :: order[i] != order[j]
    requires |order| > 0 && order[0] == s
    requires ParentsFirst(g, s, parents, order) && DiscoverersSorted(g, order)
    requires y in parents && parents[y] == Some(u)
    ensures parents[e] == Some(cu)
  {
    var ic, iw := BraidChildOrder(g, s, parents, order, y, e, u, cu, w, cw);
    BraidSecondMeeting(g, s, parents, order, y, e, u, cu, w, cw, ic, iw);
  }

  /** With y under u, the child cu of u is visited before the child cw of w. */
  lemma BraidChildOrder<V>(g: Graph<V>, s: V, parents: map<V, Option<V>>, order: seq<V>,
                           y: V, e: V, u: V, cu: V, w: V, cw: V)
    returns (ic: int, iw: int)
    requires BraidShape(g, y, e, u, cu, w, cw) && s != cu && s != cw
    requires u in parents && w in parents && cu in parents && cw in parents && y != s
    requires forall v | v in parents :: v in order
    requires forall i, j | 0 <= i < j < |order| :: order[i] != order[j]
    requires |order| > 0 && order[0] == s
    requires ParentsFirst(g, s, parents, order) && DiscoverersSorted(g, order)
    requires y in parents && parents[y] == Some(u)
    ensures 0 <= ic < iw < |order| && order[ic] == cu && order[iw] == cw
  {
    var pu :| 0 <= pu < |order| && order[pu] == u;
    var pw :| 0 <= pw < |order| && order[pw] == w;
    ic :| 0 <= ic < |order| && order[ic] == cu;
    iw :| 0 <= iw < |order| && order[iw] == cw;
    var ky :| FirstDiscoverer(g, order, y, ky) && parents[y] == Some(order[ky]);
    PositionUnique(order, ky, pu);
    DiscoveredNoLater(g, order, y, ky, pw);
    assert pu < pw;
    var kc :| FirstDiscoverer(g, order, cu, kc) && parents[cu] == Some(order[kc]);
    var kw :| FirstDiscoverer(g, order, cw, kw) && parents[cw] == Some(order[kw]);
    PositionUnique(order, kc, pu);
    PositionUnique(order, kw, pw);
    assert kc < kw;
    assert 0 < ic && 0 < iw && ic != iw;
    if iw < ic {
      DiscoverersInOrder(g, order, iw, ic, kw, kc);
      assert false;
    }
  }

  /** e's in-neighbours are cu and cw; with cu visited first, e hangs from
      cu. */
  lemma BraidSecondMeeting<V>(g: Graph<V>, s: V, parents: map<V, Option<V>>, order: seq<V>,
                              y: V, e: V, u: V, cu: V, w: V, cw: V, ic: int, iw: int)
    requires BraidShape(g, y, e, u, cu, w, cw)
    requires e in parents && e != s
    requires forall i, j | 0 <= i < j < |order| :: order[i] != order[j]
    requires ParentsFirst(g, s, parents, order)
    requires 0 <= ic < iw < |order| && order[ic] == cu && order[iw] == cw
    ensures parents[e] == Some(cu)
  {
    var ke :| FirstDiscoverer(g, order, e, ke) && parents[e] == Some(order[ke]);
    DiscoveredNoLater(g, order, e, ke, ic);
    if order[ke] == cw {
      PositionUnique(order, ke, iw);
      assert false;
    }
  }

  /**
   On the braid, y hangs from a exactly when e hangs from c: whichever of a
   and b is dequeued first discovers y, and its child is visited before
   the other child and discovers e. A shortest-path tree whose parents are
   merely first discoverers in some order would also allow y under a with
   e under d.
   */
  lemma BraidFollowsFirstSide(parents: map<char, Option<char>>, order: seq<char>)
    requires IsBfsTree(Braid(), 's', parents) && IsBfsOrder(Braid(), 's', parents, order)
    ensures 'y' in parents && 'e' in parents
    ensures parents['y'] == Some('a') <==> parents['e'] == Some('c')
  {
    BraidReached(parents);
    BraidSidesDecide(parents, order);
  }

  /** The side that first discovers y also discovers e first. */
  lemma BraidSidesDecide(parents: map<char, Option<char>>, order: seq<char>)
    requires forall v | v in Braid() :: v in parents
    requires forall v | v in parents :: v in order
    requires forall i, j | 0 <= i < j < |order| :: order[i] != order[j]
    requires |order| > 0 && order[0] == 's'
    requires ParentsFirst(Braid(), 's', parents, order) && DiscoverersSorted(Braid(), order)
    ensures 'y' in parents && 'e' in parents
    ensures parents['y'] == Some('a') <==> parents['e'] == Some('c')
  {
    assert 'y' in Braid() && 'e' in Braid();
    var ky :| FirstDiscoverer(Braid(), order, 'y', ky) && parents['y'] == Some(order[ky]);
    BraidInNeighbour(order[ky], 'y');
    if order[ky] == 'a' {
      BraidSides('a', 'c', 'b', 'd');
      BraidOneSide(Braid(), 's', parents, order, 'y', 'e', 'a', 'c', 'b', 'd');
    } else {
      BraidSides('b', 'd', 'a', 'c');
      BraidOneSide(Braid(), 's', parents, order, 'y', 'e', 'b', 'd', 'a', 'c');
    }
  }

  /** get_path for the source itself is empty. */
  method SourcePathSearch() returns (path: seq<char>)
    ensures path == []
  {
    var parents := TreeAnswer();
    assert ChainLen(parents, 's', 0);
    path := GetPath(parents, 's');
  }
}
