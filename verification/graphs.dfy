/**
 Unweighted directed graphs as adjacency maps, paths in them, hop counts,
 and parent maps read as trees of parent chains.
 */
module Graphs {
  import opened Options

  /** Each vertex maps to the set of its out-neighbours. */
  type Graph<V> = map<V, set<V>>

  /** A path from a start vertex, given as the vertices it visits after the
      start, in order; its length is its number of hops. */
  type Path<V> = seq<V>

  /** The vertex a path from s stands on after its first i hops. */
  function PathAt<V>(s: V, p: Path<V>, i: nat): V
    requires i <= |p|
  {
    if i == 0 then s else p[i - 1]
  }

  function PathEnd<V>(s: V, p: Path<V>): V {
    PathAt(s, p, |p|)
  }

  /** Every hop of p follows an edge of g. */
  ghost predicate IsPath<V>(g: Graph<V>, s: V, p: Path<V>) {
    forall i :: 0 <= i < |p| ==> PathAt(s, p, i) in g && p[i] in g[PathAt(s, p, i)]
  }

  ghost predicate PathReaches<V(!new)>(g: Graph<V>, s: V, v: V) {
    exists p :: IsPath(g, s, p) && PathEnd(s, p) == v
  }

  /** Every vertex reachable from s is a key of g: exactly what a search from
      s needs so that no adjacency lookup fails. */
  ghost predicate PathsStayInGraph<V(!new)>(g: Graph<V>, s: V) {
    forall p :: IsPath(g, s, p) ==> PathEnd(s, p) in g
  }

  /** Every neighbour named in an adjacency set is itself a key. */
  ghost predicate ClosedGraph<V>(g: Graph<V>) {
    forall u, w | u in g && w in g[u] :: w in g
  }

  /** n is the fewest hops of any path from s to v, and some path takes n. */
  ghost predicate MinHops<V(!new)>(g: Graph<V>, s: V, v: V, n: nat) {
    && (exists p :: IsPath(g, s, p) && PathEnd(s, p) == v && |p| == n)
    && (forall p | IsPath(g, s, p) && PathEnd(s, p) == v :: n <= |p|)
  }

  lemma PathAppend<V>(g: Graph<V>, s: V, p: Path<V>, w: V)
    requires IsPath(g, s, p)
    requires PathEnd(s, p) in g && w in g[PathEnd(s, p)]
    ensures IsPath(g, s, p + [w]) && PathEnd(s, p + [w]) == w
  {
    var q := p + [w];
    forall i | 0 <= i < |q|
      ensures PathAt(s, q, i) in g && q[i] in g[PathAt(s, q, i)]
    {
      if i < |p| {
        assert PathAt(s, q, i) == PathAt(s, p, i);
      }
    }
  }

  lemma PathPrefix<V>(g: Graph<V>, s: V, p: Path<V>)
    requires IsPath(g, s, p) && |p| > 0
    ensures IsPath(g, s, p[..|p| - 1])
    ensures PathEnd(s, p[..|p| - 1]) in g && p[|p| - 1] in g[PathEnd(s, p[..|p| - 1])]
  {
    var q := p[..|p| - 1];
    assert PathAt(s, p, |p| - 1) == PathEnd(s, q);
    forall i | 0 <= i < |q|
      ensures PathAt(s, q, i) in g && q[i] in g[PathAt(s, q, i)]
    {
      assert PathAt(s, q, i) == PathAt(s, p, i);
    }
  }

  /** When every key of g is closed under edges, reachability cannot leave g. */
  lemma {:induction false} ClosedPathsStayInGraph<V(!new)>(g: Graph<V>, s: V)
    requires ClosedGraph(g) && s in g
    ensures PathsStayInGraph(g, s)
  {
    forall p | IsPath(g, s, p)
      ensures PathEnd(s, p) in g
    {
      if |p| > 0 {
        assert PathAt(s, p, |p| - 1) in g && p[|p| - 1] in g[PathAt(s, p, |p| - 1)];
      }
    }
  }

  /**
   A hop table is feasible for s when it gives s level 0 and no edge out of
   a vertex in the table leads outside it or more than one level down.
   This is the state breadth-first search stops in.
   */
  ghost predicate HopFeasible<V>(g: Graph<V>, s: V, level: map<V, nat>) {
    && s in level && level[s] == 0
    && forall u | u in level :: u in g && forall w | w in g[u] :: w in level && level[w] <= level[u] + 1
  }

  /** A feasible hop table is a lower bound on the length of every path. */
  lemma {:induction false} HopBound<V>(g: Graph<V>, s: V, level: map<V, nat>, p: Path<V>)
    requires HopFeasible(g, s, level) && IsPath(g, s, p)
    ensures PathEnd(s, p) in level && level[PathEnd(s, p)] <= |p|
    decreases |p|
  {
    if |p| > 0 {
      var q := p[..|p| - 1];
      PathPrefix(g, s, p);
      HopBound(g, s, level, q);
      assert PathEnd(s, p) == p[|p| - 1];
    }
  }

  /** The fewest hops from s to v is one number. */
  lemma MinHopsUnique<V(!new)>(g: Graph<V>, s: V, v: V, m: nat, n: nat)
    requires MinHops(g, s, v, m) && MinHops(g, s, v, n)
    ensures m == n
  {
    var p :| IsPath(g, s, p) && PathEnd(s, p) == v && |p| == m;
    var q :| IsPath(g, s, q) && PathEnd(s, q) == v && |q| == n;
  }

  /**
   Following parent links from v reaches a vertex whose parent is None after
   exactly n links, every vertex on the way being a key of parents.
   */
  ghost predicate ChainLen<V>(parents: map<V, Option<V>>, v: V, n: nat)
    decreases n
  {
    v in parents &&
    if n == 0 then parents[v].None?
    else parents[v].Some? && ChainLen(parents, parents[v].value, n - 1)
  }

  /** A parent chain has one length only. */
  lemma {:induction false} ChainLenUnique<V>(parents: map<V, Option<V>>, v: V, m: nat, n: nat)
    requires ChainLen(parents, v, m) && ChainLen(parents, v, n)
    ensures m == n
    decreases n
  {
    if m > 0 && n > 0 {
      ChainLenUnique(parents, parents[v].value, m - 1, n - 1);
    }
  }
}
