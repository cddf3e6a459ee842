/**
 Weighted directed graphs as adjacency maps, walks in them, and the
 lexicographic order on (total weight, edge count) labels that the
 shortest-shortest-path search minimises.
 */
module WeightedGraphs {

  /** Each vertex maps to its set of outgoing (neighbour, weight) edges. */
  type WGraph<V> = map<V, set<(V, nat)>>

  /** A walk from a start vertex, given as the edges it follows in order. */
  type Walk<V> = seq<(V, nat)>

  /** The vertex a walk from s stands on after its first i edges. */
  function WalkAt<V>(s: V, p: Walk<V>, i: nat): V
    requires i <= |p|
  {
    if i == 0 then s else p[i - 1].0
  }

  function WalkEnd<V>(s: V, p: Walk<V>): V {
    WalkAt(s, p, |p|)
  }

  /** Every edge of p leaves the vertex the walk stands on and is in the graph. */
  ghost predicate IsWalk<V>(g: WGraph<V>, s: V, p: Walk<V>) {
    forall i :: 0 <= i < |p| ==> WalkAt(s, p, i) in g && p[i] in g[WalkAt(s, p, i)]
  }

  /** Total weight of a walk. */
  function Weight<V>(p: Walk<V>): nat {
    if |p| == 0 then 0 else Weight(p[..|p| - 1]) + p[|p| - 1].1
  }

  /** Every vertex reachable from s is a key of g: exactly what the search
      needs so that no dictionary lookup fails. */
  ghost predicate WalksStayInGraph<V(!new)>(g: WGraph<V>, s: V) {
    forall p :: IsWalk(g, s, p) ==> WalkEnd(s, p) in g
  }

  /** Every neighbour named in an adjacency set is itself a key. */
  ghost predicate ClosedWeightedGraph<V>(g: WGraph<V>) {
    forall u, edge | u in g && edge in g[u] :: edge.0 in g
  }

  /** A distance: a finite weight, or Python's float('inf'). */
  datatype Dist = Infinity | Finite(value: nat)

  /** The (distance, edge count) pair recorded for a vertex. */
  datatype Label = Label(dist: Dist, edges: nat)

  /** Strict lexicographic order: distance first (infinity above every
      finite distance), edge count on ties. */
  predicate LabelLt(a: Label, b: Label) {
    if a.dist.Infinity? then b.dist.Infinity? && a.edges < b.edges
    else b.dist.Infinity? || a.dist.value < b.dist.value
         || (a.dist.value == b.dist.value && a.edges < b.edges)
  }

  predicate LabelLe(a: Label, b: Label) {
    a == b || LabelLt(a, b)
  }

  /** The label a walk earns: its weight and its number of edges. */
  function CostOf<V>(p: Walk<V>): Label {
    Label(Finite(Weight(p)), |p|)
  }

  /** The label offered to edge.0 by extending a path of label l by edge. */
  function Extend<V>(l: Label, edge: (V, nat)): (r: Label)
    requires l.dist.Finite?
    ensures LabelLt(l, r)
  {
    Label(Finite(l.dist.value + edge.1), l.edges + 1)
  }

  lemma LabelLeTrans(a: Label, b: Label, c: Label)
    requires LabelLe(a, b) && LabelLe(b, c)
    ensures LabelLe(a, c)
    ensures LabelLt(a, b) || LabelLt(b, c) ==> LabelLt(a, c)
  {
  }

  lemma LabelLeAntisym(a: Label, b: Label)
    requires LabelLe(a, b) && LabelLe(b, a)
    ensures a == b
  {
  }

  lemma ExtendMonotone<V>(a: Label, b: Label, edge: (V, nat))
    requires a.dist.Finite? && b.dist.Finite? && LabelLe(a, b)
    ensures LabelLe(Extend(a, edge), Extend(b, edge))
  {
  }

  lemma WalkAppend<V>(g: WGraph<V>, s: V, p: Walk<V>, edge: (V, nat))
    requires IsWalk(g, s, p)
    requires WalkEnd(s, p) in g && edge in g[WalkEnd(s, p)]
    ensures IsWalk(g, s, p + [edge])
    ensures WalkEnd(s, p + [edge]) == edge.0
    ensures CostOf(p + [edge]) == Extend(CostOf(p), edge)
  {
    var q := p + [edge];
    assert q[..|q| - 1] == p;
    forall i | 0 <= i < |q|
      ensures WalkAt(s, q, i) in g && q[i] in g[WalkAt(s, q, i)]
    {
      if i < |p| {
        assert WalkAt(s, q, i) == WalkAt(s, p, i);
      }
    }
  }

  lemma WalkPrefix<V>(g: WGraph<V>, s: V, p: Walk<V>)
    requires IsWalk(g, s, p) && |p| > 0
    ensures IsWalk(g, s, p[..|p| - 1])
    ensures WalkEnd(s, p[..|p| - 1]) in g && p[|p| - 1] in g[WalkEnd(s, p[..|p| - 1])]
    ensures CostOf(p) == Extend(CostOf(p[..|p| - 1]), p[|p| - 1])
  {
    var q := p[..|p| - 1];
    assert WalkAt(s, p, |p| - 1) == WalkEnd(s, q);
    forall i | 0 <= i < |q|
      ensures WalkAt(s, q, i) in g && q[i] in g[WalkAt(s, q, i)]
    {
      assert WalkAt(s, q, i) == WalkAt(s, p, i);
    }
  }

  /** When every key of g is closed under edges, reachability cannot leave g. */
  lemma {:induction false} ClosedWalksStayInGraph<V(!new)>(g: WGraph<V>, s: V)
    requires ClosedWeightedGraph(g) && s in g
    ensures WalksStayInGraph(g, s)
  {
    forall p | IsWalk(g, s, p)
      ensures WalkEnd(s, p) in g
    {
      if |p| > 0 {
        assert WalkAt(s, p, |p| - 1) in g && p[|p| - 1] in g[WalkAt(s, p, |p| - 1)];
      }
    }
  }

  /**
   A table t is a feasible potential for s when t gives s the label (0, 0)
   and no edge leaving a finitely-labelled vertex can improve its target.
   This is the state the search stops in.
   */
  ghost predicate Feasible<V>(g: WGraph<V>, s: V, t: map<V, Label>) {
    && s in t && t[s] == Label(Finite(0), 0)
    && forall u, edge | u in t && t[u].dist.Finite? && u in g && edge in g[u] ::
         edge.0 in t && LabelLe(t[edge.0], Extend(t[u], edge))
  }

  /** A feasible potential is a lower bound on the label of every walk. */
  lemma {:induction false} PotentialBound<V>(g: WGraph<V>, s: V, t: map<V, Label>, p: Walk<V>)
    requires Feasible(g, s, t) && IsWalk(g, s, p)
    ensures WalkEnd(s, p) in t && t[WalkEnd(s, p)].dist.Finite?
    ensures LabelLe(t[WalkEnd(s, p)], CostOf(p))
    decreases |p|
  {
    if |p| > 0 {
      var q := p[..|p| - 1];
      var edge := p[|p| - 1];
      WalkPrefix(g, s, p);
      PotentialBound(g, s, t, q);
      var u := WalkEnd(s, q);
      assert LabelLe(t[edge.0], Extend(t[u], edge));
      ExtendMonotone(t[u], CostOf(q), edge);
      LabelLeTrans(t[edge.0], Extend(t[u], edge), CostOf(p));
    }
  }
}
