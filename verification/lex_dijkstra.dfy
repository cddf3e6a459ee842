/**
 The weighted search of main.py: Dijkstra's algorithm with the priority
 (total weight, edge count) compared lexicographically, so that among the
 lightest walks to a vertex the one with fewest edges wins.
 */
module LexDijkstra {
  import opened WeightedGraphs

  /** A priority-queue entry (d, e, u). */
  datatype Entry<V> = Entry(weight: nat, edges: nat, vertex: V) {
    function Key(): Label {
      Label(Finite(weight), edges)
    }
  }

  /** The priority queue: a bag of entries from which a least one is popped. */
  type Queue<V(==)> = multiset<Entry<V>>

  predicate IsMinEntry<V(==)>(x: Entry<V>, pq: Queue<V>) {
    x in pq && forall y | y in pq :: LabelLe(x.Key(), y.Key())
  }

  /** Every non-empty queue has a lexicographically least entry. */
  lemma {:induction false} MinEntryExists<V>(pq: Queue<V>)
    requires |pq| > 0
    ensures exists x :: IsMinEntry(x, pq)
    decreases |pq|
  {
    var x :| x in pq;
    var rest := pq - multiset{x};
    if |rest| == 0 {
      assert pq == rest + multiset{x};
      assert rest == multiset{};
      assert IsMinEntry(x, pq);
    } else {
      MinEntryExists(rest);
      var m :| IsMinEntry(m, rest);
      if LabelLe(x.Key(), m.Key()) {
        forall y | y in pq
          ensures LabelLe(x.Key(), y.Key())
        {
          if y != x {
            assert y in rest;
            LabelLeTrans(x.Key(), m.Key(), y.Key());
          }
        }
        assert IsMinEntry(x, pq);
      } else {
        forall y | y in pq
          ensures LabelLe(m.Key(), y.Key())
        {
          if y != x {
            assert y in rest;
          }
        }
        assert IsMinEntry(m, pq);
      }
    }
  }

  /**
   The relaxation test of main.py:29, written as the source writes it:
   the candidate distance is smaller, or equal with fewer edges. It is
   exactly "the candidate label is lexicographically smaller".
   */
  function Improves(nd: nat, ne: nat, cur: Label): (r: bool)
    ensures r <==> LabelLt(Label(Finite(nd), ne), cur)
  {
    match cur.dist
    case Infinity => true
    case Finite(d) => nd < d || (nd == d && ne < cur.edges)
  }

  /** The label offered along edge by a popped entry (d, e). */
  function Offer<V>(d: nat, e: nat, edge: (V, nat)): Label {
    Extend(Label(Finite(d), e), edge)
  }

  /** l is the offer of some edge of out that leads to v. */
  ghost predicate IsOffer<V>(out: set<(V, nat)>, d: nat, e: nat, v: V, l: Label) {
    exists edge :: edge in out && edge.0 == v && l == Offer(d, e, edge)
  }

  /** The labels changed so far are offers made along out, and each is queued. */
  ghost predicate ChangesQueued<V>(out: set<(V, nat)>, d: nat, e: nat,
                                   best: map<V, Label>, best': map<V, Label>, pq': Queue<V>)
    requires best.Keys <= best'.Keys
  {
    forall v | v in best && best'[v] != best[v] ::
      IsOffer(out, d, e, v, best'[v]) && best'[v].dist.Finite?
        && Entry(best'[v].dist.value, best'[v].edges, v) in pq'
  }

  /** Every entry pushed so far is an offer along out that was strictly below
      the label its vertex had before. */
  ghost predicate PushesImprove<V>(out: set<(V, nat)>, d: nat, e: nat,
                                   best: map<V, Label>, pq: Queue<V>, pq': Queue<V>)
  {
    forall y | y in pq' - pq ::
      y.vertex in best && IsOffer(out, d, e, y.vertex, y.Key()) && LabelLt(y.Key(), best[y.vertex])
  }

  /** What holds of (best', pq') after the edges out - todo have been relaxed
      against (best, pq). */
  ghost predicate Relaxed<V>(out: set<(V, nat)>, todo: set<(V, nat)>, d: nat, e: nat,
                             best: map<V, Label>, pq: Queue<V>, best': map<V, Label>, pq': Queue<V>)
  {
    && best'.Keys == best.Keys
    && (forall v | v in best :: LabelLe(best'[v], best[v]))
    && (forall edge | edge in out && edge !in todo :: edge.0 in best' && LabelLe(best'[edge.0], Offer(d, e, edge)))
    && ChangesQueued(out, d, e, best, best', pq')
    && pq <= pq'
    && PushesImprove(out, d, e, best, pq, pq')
  }

  /** Relaxing one more edge whose offer does not improve its target keeps
      Relaxed with nothing changed. */
  lemma RelaxKeep<V>(out: set<(V, nat)>, todo: set<(V, nat)>, d: nat, e: nat,
                     best: map<V, Label>, pq: Queue<V>, best': map<V, Label>, pq': Queue<V>,
                     edge: (V, nat))
    requires Relaxed(out, todo, d, e, best, pq, best', pq')
    requires edge in todo && todo <= out && edge.0 in best
    requires !Improves(d + edge.1, e + 1, best'[edge.0])
    ensures Relaxed(out, todo - {edge}, d, e, best, pq, best', pq')
  {
  }

  /** Recording an improving offer keeps the changed labels queued. */
  lemma ImproveQueued<V>(out: set<(V, nat)>, d: nat, e: nat,
                         best: map<V, Label>, best': map<V, Label>, pq': Queue<V>, edge: (V, nat))
    requires best.Keys == best'.Keys && ChangesQueued(out, d, e, best, best', pq')
    requires edge in out && edge.0 in best
    ensures ChangesQueued(out, d, e, best, best'[edge.0 := Offer(d, e, edge)],
                          pq' + multiset{Entry(d + edge.1, e + 1, edge.0)})
  {
    assert IsOffer(out, d, e, edge.0, Offer(d, e, edge));
  }

  /** Pushing an offer that beats the current, hence the original, label keeps
      every push an improvement. */
  lemma ImprovePushes<V>(out: set<(V, nat)>, d: nat, e: nat,
                         best: map<V, Label>, pq: Queue<V>, best': map<V, Label>, pq': Queue<V>, edge: (V, nat))
    requires PushesImprove(out, d, e, best, pq, pq') && pq <= pq'
    requires edge in out && edge.0 in best && edge.0 in best'
    requires LabelLe(best'[edge.0], best[edge.0]) && LabelLt(Offer(d, e, edge), best'[edge.0])
    ensures PushesImprove(out, d, e, best, pq, pq' + multiset{Entry(d + edge.1, e + 1, edge.0)})
  {
    var y := Entry(d + edge.1, e + 1, edge.0);
    assert y.Key() == Offer(d, e, edge);
    assert IsOffer(out, d, e, edge.0, y.Key());
    LabelLeTrans(y.Key(), best'[edge.0], best[edge.0]);
    forall z | z in (pq' + multiset{y}) - pq
      ensures z.vertex in best && IsOffer(out, d, e, z.vertex, z.Key()) && LabelLt(z.Key(), best[z.vertex])
    {
      if z != y {
        assert z in pq' - pq;
      }
    }
  }

  /** Relaxing one more edge whose offer improves its target keeps Relaxed
      once the offer is recorded and pushed (main.py:29-32). */
  lemma RelaxImprove<V>(out: set<(V, nat)>, todo: set<(V, nat)>, d: nat, e: nat,
                        best: map<V, Label>, pq: Queue<V>, best': map<V, Label>, pq': Queue<V>,
                        edge: (V, nat))
    requires Relaxed(out, todo, d, e, best, pq, best', pq')
    requires edge in todo && todo <= out && edge.0 in best
    requires Improves(d + edge.1, e + 1, best'[edge.0])
    ensures Relaxed(out, todo - {edge}, d, e, best, pq, best'[edge.0 := Offer(d, e, edge)],
                    pq' + multiset{Entry(d + edge.1, e + 1, edge.0)})
  {
    var v := edge.0;
    var b2 := best'[v := Offer(d, e, edge)];
    LabelLeTrans(Offer(d, e, edge), best'[v], best[v]);
    ImproveQueued(out, d, e, best, best', pq', edge);
    ImprovePushes(out, d, e, best, pq, best', pq', edge);
    forall edge' | edge' in out && edge' !in todo - {edge}
      ensures edge'.0 in b2 && LabelLe(b2[edge'.0], Offer(d, e, edge'))
    {
      if edge' != edge && edge'.0 == v {
        LabelLeTrans(b2[v], best'[v], Offer(d, e, edge'));
      }
    }
  }

  /**
   The inner loop of main.py:25-32: relax every out-edge of the popped
   vertex against the popped entry (d, e). Afterwards each neighbour's label
   is at most its old label and at most every offer it received, a changed
   label is one of those offers and is queued, and an entry was pushed only
   for a strict improvement, so labels never increase.
   */
  method Expand<V(==)>(out: set<(V, nat)>, best: map<V, Label>, pq: Queue<V>, d: nat, e: nat)
    returns (best': map<V, Label>, pq': Queue<V>)
    requires forall edge | edge in out :: edge.0 in best
    ensures Relaxed(out, {}, d, e, best, pq, best', pq')
  {
    best', pq' := best, pq;
    var todo := out;
    while todo != {}
      invariant todo <= out
      invariant Relaxed(out, todo, d, e, best, pq, best', pq')
      decreases |todo|
    {
      var edge :| edge in todo;
      var newDistance, newEdges := d + edge.1, e + 1;
      if Improves(newDistance, newEdges, best'[edge.0]) {
        RelaxImprove(out, todo, d, e, best, pq, best', pq', edge);
        best' := best'[edge.0 := Offer(d, e, edge)];
        pq' := pq' + multiset{Entry(newDistance, newEdges, edge.0)};
      } else {
        RelaxKeep(out, todo, d, e, best, pq, best', pq', edge);
      }
      todo := todo - {edge};
    }
  }

  /**
   What shortest_shortest_path returns (main.py:4-34): a label for every key
   of g, (0, 0) for the source, (infinity, 0) for the vertices no walk
   reaches, and for every other vertex the lexicographically least
   (weight, edge count) over all walks to it, which some walk attains.
   */
  ghost predicate IsShortestShortest<V(!new)>(g: WGraph<V>, s: V, r: map<V, Label>) {
    && r.Keys == g.Keys
    && s in r && r[s] == Label(Finite(0), 0)
    && (forall v | v in r && r[v].dist.Infinity? :: r[v].edges == 0)
    && (forall v | v in r && r[v].dist.Finite? ::
          exists p :: IsWalk(g, s, p) && WalkEnd(s, p) == v && CostOf(p) == r[v])
    && (forall p | IsWalk(g, s, p) :: WalkEnd(s, p) in r && LabelLe(r[WalkEnd(s, p)], CostOf(p)))
  }

  // The loop invariant of the search. `settled` holds the vertices whose
  // out-edges have been relaxed with their final label, `floor` is the key
  // popped last, and `walks` holds, for each finitely labelled vertex, a walk
  // that earns its label.

  /** Every queued entry names a key whose label is at most the entry's key,
      and no entry lies below the key popped last. */
  ghost predicate EntriesAbove<V>(best: map<V, Label>, pq: Queue<V>, floor: Label) {
    forall y | y in pq :: y.vertex in best && LabelLe(best[y.vertex], y.Key()) && LabelLe(floor, y.Key())
  }

  /** A finitely labelled vertex that is not settled has its label queued. */
  ghost predicate PendingQueued<V>(best: map<V, Label>, pq: Queue<V>, settled: set<V>) {
    forall v | v in best && best[v].dist.Finite? && v !in settled ::
      Entry(best[v].dist.value, best[v].edges, v) in pq
  }

  /** A settled vertex has a label no larger than the floor, and none of its
      out-edges can improve its target. */
  ghost predicate SettledFinal<V>(g: WGraph<V>, best: map<V, Label>, settled: set<V>, floor: Label) {
    forall u | u in settled ::
      && u in best && u in g && best[u].dist.Finite? && LabelLe(best[u], floor)
      && forall edge | edge in g[u] :: edge.0 in best && LabelLe(best[edge.0], Extend(best[u], edge))
  }

  /** Every finite label is earned by a recorded walk from s. */
  ghost predicate WalksWitnessed<V>(g: WGraph<V>, s: V, best: map<V, Label>, walks: map<V, Walk<V>>) {
    forall v | v in best && best[v].dist.Finite? ::
      v in walks && IsWalk(g, s, walks[v]) && WalkEnd(s, walks[v]) == v && CostOf(walks[v]) == best[v]
  }

  ghost predicate SearchInv<V>(g: WGraph<V>, s: V, best: map<V, Label>, pq: Queue<V>,
                               settled: set<V>, floor: Label, walks: map<V, Walk<V>>)
  {
    && best.Keys == g.Keys
    && settled <= g.Keys
    && s in best && best[s] == Label(Finite(0), 0)
    && floor.dist.Finite?
    && (forall v | v in best && best[v].dist.Infinity? :: best[v].edges == 0)
    && EntriesAbove(best, pq, floor)
    && PendingQueued(best, pq, settled)
    && SettledFinal(g, best, settled, floor)
    && WalksWitnessed(g, s, best, walks)
  }

  /** Popping an entry that changes no label keeps the invariant: one heavier
      than its vertex's label (main.py:22-23), or one whose vertex is settled. */
  lemma DiscardStep<V>(g: WGraph<V>, s: V, best: map<V, Label>, pq: Queue<V>,
                     settled: set<V>, floor: Label, walks: map<V, Walk<V>>, top: Entry<V>)
    requires SearchInv(g, s, best, pq, settled, floor, walks)
    requires IsMinEntry(top, pq)
    requires top.vertex in best && best[top.vertex].dist.Finite?
    requires top.weight > best[top.vertex].dist.value || top.vertex in settled
    ensures SearchInv(g, s, best, pq - multiset{top}, settled, top.Key(), walks)
  {
    var rest := pq - multiset{top};
    forall v | v in settled
      ensures LabelLe(best[v], top.Key())
    {
      LabelLeTrans(best[v], floor, top.Key());
    }
    forall v | v in best && best[v].dist.Finite? && v !in settled
      ensures Entry(best[v].dist.value, best[v].edges, v) in rest
    {
      var y := Entry(best[v].dist.value, best[v].edges, v);
      assert y in pq && y != top;
    }
  }

  /** A popped vertex has a finite label no larger than the popped key. */
  lemma PoppedLabel<V>(best: map<V, Label>, pq: Queue<V>, floor: Label, top: Entry<V>)
    requires EntriesAbove(best, pq, floor) && top in pq
    ensures top.vertex in best && best[top.vertex].dist.Finite? && LabelLe(best[top.vertex], top.Key())
  {
  }

  /** The label of every vertex the walk to u can be extended to is a key. */
  lemma NeighboursInGraph<V(!new)>(g: WGraph<V>, s: V, best: map<V, Label>, walks: map<V, Walk<V>>, u: V)
    requires WalksStayInGraph(g, s)
    requires best.Keys == g.Keys && WalksWitnessed(g, s, best, walks)
    requires u in best && best[u].dist.Finite?
    ensures forall edge | edge in g[u] :: edge.0 in best
  {
    forall edge | edge in g[u]
      ensures edge.0 in best
    {
      WalkAppend(g, s, walks[u], edge);
    }
  }

  /** Every offer made by popping top lies strictly above top's key, so a
      label changed by the expansion now lies above it. */
  lemma OffersAboveFloor<V>(out: set<(V, nat)>, best: map<V, Label>, rest: Queue<V>, top: Entry<V>,
                            best': map<V, Label>, pq': Queue<V>)
    requires Relaxed(out, {}, top.weight, top.edges, best, rest, best', pq')
    ensures forall v | v in best :: best'[v] == best[v] || LabelLt(top.Key(), best'[v])
    ensures forall y | y in pq' - rest :: LabelLt(top.Key(), y.Key())
  {
    var d, e, fl := top.weight, top.edges, top.Key();
    forall v | v in best
      ensures best'[v] == best[v] || LabelLt(fl, best'[v])
    {
      if best'[v] != best[v] {
        var edge :| edge in out && edge.0 == v && best'[v] == Offer(d, e, edge);
      }
    }
    forall y | y in pq' - rest
      ensures LabelLt(fl, y.Key())
    {
      var edge :| edge in out && edge.0 == y.vertex && y.Key() == Offer(d, e, edge);
    }
  }

  /** Re-expanding a settled vertex (a popped entry with the vertex's weight
      but more edges) changes nothing. */
  lemma RepeatExpandIsNoop<V>(g: WGraph<V>, best: map<V, Label>, rest: Queue<V>, top: Entry<V>,
                              best': map<V, Label>, pq': Queue<V>)
    requires top.vertex in g && top.vertex in best && best[top.vertex].dist.Finite?
    requires LabelLe(best[top.vertex], top.Key())
    requires forall edge | edge in g[top.vertex] ::
               edge.0 in best && LabelLe(best[edge.0], Extend(best[top.vertex], edge))
    requires Relaxed(g[top.vertex], {}, top.weight, top.edges, best, rest, best', pq')
    ensures best' == best && pq' == rest
  {
    var u, d, e, fl := top.vertex, top.weight, top.edges, top.Key();
    var out := g[u];
    forall v, l | v in best && IsOffer(out, d, e, v, l)
      ensures LabelLe(best[v], l)
    {
      var edge :| edge in out && edge.0 == v && l == Offer(d, e, edge);
      ExtendMonotone(best[u], fl, edge);
      LabelLeTrans(best[v], Extend(best[u], edge), Extend(fl, edge));
    }
    forall v | v in best
      ensures best'[v] == best[v]
    {
      if IsOffer(out, d, e, v, best'[v]) {
        LabelLeAntisym(best'[v], best[v]);
      }
    }
    assert pq' - rest == multiset{};
    assert pq' == rest + (pq' - rest);
  }

  /** Labels that an expansion of top leaves unchanged: those at or below
      top's key, in particular the settled ones and the source. */
  lemma LowLabelsUnchanged<V>(out: set<(V, nat)>, best: map<V, Label>, rest: Queue<V>, top: Entry<V>,
                              best': map<V, Label>, pq': Queue<V>, low: set<V>)
    requires Relaxed(out, {}, top.weight, top.edges, best, rest, best', pq')
    requires forall x | x in low :: x in best && LabelLe(best[x], top.Key())
    ensures forall x | x in low :: best'[x] == best[x]
  {
    OffersAboveFloor(out, best, rest, top, best', pq');
  }

  /** After a first expansion every queued entry still lies above its
      vertex's label and above the new floor. */
  lemma FirstEntriesAbove<V>(out: set<(V, nat)>, best: map<V, Label>, rest: Queue<V>, top: Entry<V>,
                             best': map<V, Label>, pq': Queue<V>)
    requires Relaxed(out, {}, top.weight, top.edges, best, rest, best', pq')
    requires EntriesAbove(best, rest, top.Key())
    ensures EntriesAbove(best', pq', top.Key())
  {
    OffersAboveFloor(out, best, rest, top, best', pq');
    forall y | y in pq'
      ensures y.vertex in best' && LabelLe(best'[y.vertex], y.Key()) && LabelLe(top.Key(), y.Key())
    {
      if y in rest {
        LabelLeTrans(best'[y.vertex], best[y.vertex], y.Key());
      } else {
        assert y in pq' - rest;
        var edge :| edge in out && edge.0 == y.vertex && y.Key() == Offer(top.weight, top.edges, edge);
      }
    }
  }

  /** After a first expansion of top.vertex every unsettled finite label is
      queued. */
  lemma FirstPendingQueued<V>(out: set<(V, nat)>, best: map<V, Label>, pq: Queue<V>, top: Entry<V>,
                              settled: set<V>, best': map<V, Label>, pq': Queue<V>)
    requires Relaxed(out, {}, top.weight, top.edges, best, pq - multiset{top}, best', pq')
    requires PendingQueued(best, pq, settled)
    ensures PendingQueued(best', pq', settled + {top.vertex})
  {
    var rest := pq - multiset{top};
    forall v | v in best' && best'[v].dist.Finite? && v !in settled + {top.vertex}
      ensures Entry(best'[v].dist.value, best'[v].edges, v) in pq'
    {
      if best'[v] == best[v] {
        assert Entry(best[v].dist.value, best[v].edges, v) in rest;
      }
    }
  }

  /** After a first expansion of u = top.vertex, u and the vertices settled
      before are settled with respect to the new floor. */
  lemma FirstSettledFinal<V>(g: WGraph<V>, best: map<V, Label>, rest: Queue<V>, top: Entry<V>,
                             settled: set<V>, floor: Label, best': map<V, Label>, pq': Queue<V>)
    requires top.vertex in g && top.vertex in best && best[top.vertex] == top.Key()
    requires Relaxed(g[top.vertex], {}, top.weight, top.edges, best, rest, best', pq')
    requires SettledFinal(g, best, settled, floor) && LabelLe(floor, top.Key())
    requires forall x | x in settled + {top.vertex} :: best'[x] == best[x]
    ensures SettledFinal(g, best', settled + {top.vertex}, top.Key())
  {
    var u := top.vertex;
    forall x | x in settled + {u}
      ensures LabelLe(best'[x], top.Key())
    {
      if x in settled {
        LabelLeTrans(best[x], floor, top.Key());
      }
    }
    forall x, edge | x in settled + {u} && edge in g[x]
      ensures edge.0 in best' && LabelLe(best'[edge.0], Extend(best'[x], edge))
    {
      if x in settled {
        LabelLeTrans(best'[edge.0], best[edge.0], Extend(best[x], edge));
      } else {
        FirstSettledRelaxed(g[u], best, rest, top, best', pq', edge);
      }
    }
  }

  /** The settled vertices, the popped one and the source all have labels at
      most the popped key. */
  lemma SettledBelow<V>(best: map<V, Label>, settled: set<V>, floor: Label, top: Entry<V>, s: V)
    requires forall x | x in settled :: x in best && LabelLe(best[x], floor)
    requires LabelLe(floor, top.Key())
    requires top.vertex in best && best[top.vertex] == top.Key()
    requires s in best && best[s] == Label(Finite(0), 0)
    ensures forall x | x in settled + {top.vertex, s} :: x in best && LabelLe(best[x], top.Key())
  {
    forall x | x in settled
      ensures LabelLe(best[x], top.Key())
    {
      LabelLeTrans(best[x], floor, top.Key());
    }
  }

  /** Expanding a vertex popped for the first time, with its own label
      (main.py:25-32), keeps the labels' part of the invariant and settles
      the vertex. */
  lemma FirstExpandLabels<V>(g: WGraph<V>, s: V, best: map<V, Label>, pq: Queue<V>,
                             settled: set<V>, floor: Label, walks: map<V, Walk<V>>, top: Entry<V>,
                             best': map<V, Label>, pq': Queue<V>)
    returns (walks': map<V, Walk<V>>)
    requires best.Keys == g.Keys && settled <= g.Keys
    requires s in best && best[s] == Label(Finite(0), 0)
    requires forall v | v in best && best[v].dist.Infinity? :: best[v].edges == 0
    requires SettledFinal(g, best, settled, floor) && WalksWitnessed(g, s, best, walks)
    requires top.vertex in best && best[top.vertex] == top.Key() && LabelLe(floor, top.Key())
    requires Relaxed(g[top.vertex], {}, top.weight, top.edges, best, pq - multiset{top}, best', pq')
    ensures best'.Keys == g.Keys && settled + {top.vertex} <= g.Keys
    ensures s in best' && best'[s] == Label(Finite(0), 0)
    ensures forall v | v in best' && best'[v].dist.Infinity? :: best'[v].edges == 0
    ensures SettledFinal(g, best', settled + {top.vertex}, top.Key())
    ensures WalksWitnessed(g, s, best', walks')
  {
    var u := top.vertex;
    var rest := pq - multiset{top};
    SettledBelow(best, settled, floor, top, s);
    LowLabelsUnchanged(g[u], best, rest, top, best', pq', settled + {u, s});
    walks' := ExtendWalks(g, s, best, walks, top, best');
    FirstSettledFinal(g, best, rest, top, settled, floor, best', pq');
  }

  /** Expanding a vertex popped for the first time keeps the queue's part of
      the invariant, with the popped key as the new floor. */
  lemma FirstExpandQueue<V>(best: map<V, Label>, pq: Queue<V>, settled: set<V>, floor: Label, top: Entry<V>,
                            out: set<(V, nat)>, best': map<V, Label>, pq': Queue<V>)
    requires EntriesAbove(best, pq, floor) && PendingQueued(best, pq, settled)
    requires IsMinEntry(top, pq)
    requires Relaxed(out, {}, top.weight, top.edges, best, pq - multiset{top}, best', pq')
    ensures EntriesAbove(best', pq', top.Key())
    ensures PendingQueued(best', pq', settled + {top.vertex})
  {
    FirstEntriesAbove(out, best, pq - multiset{top}, top, best', pq');
    FirstPendingQueued(out, best, pq, top, settled, best', pq');
  }

  /** After the first expansion of u = top.vertex, none of u's out-edges
      can improve its target. */
  lemma FirstSettledRelaxed<V>(out: set<(V, nat)>, best: map<V, Label>, rest: Queue<V>, top: Entry<V>,
                               best': map<V, Label>, pq': Queue<V>, edge: (V, nat))
    requires Relaxed(out, {}, top.weight, top.edges, best, rest, best', pq')
    requires top.vertex in best' && best'[top.vertex] == top.Key() && edge in out
    ensures edge.0 in best' && LabelLe(best'[edge.0], Extend(best'[top.vertex], edge))
  {
  }

  /** The walks for the labels changed by a first expansion of top.vertex:
      the walk to top.vertex followed by the edge that made the offer. */
  lemma ExtendWalks<V>(g: WGraph<V>, s: V, best: map<V, Label>, walks: map<V, Walk<V>>, top: Entry<V>,
                       best': map<V, Label>)
    returns (walks': map<V, Walk<V>>)
    requires top.vertex in g && top.vertex in best && best[top.vertex] == top.Key()
    requires WalksWitnessed(g, s, best, walks)
    requires best'.Keys == best.Keys
    requires forall v | v in best && best'[v] != best[v] ::
               IsOffer(g[top.vertex], top.weight, top.edges, v, best'[v]) && best'[v].dist.Finite?
    ensures WalksWitnessed(g, s, best', walks')
  {
    var u, d, e := top.vertex, top.weight, top.edges;
    var out := g[u];
    walks' := map v | v in best' && best'[v].dist.Finite? ::
      if best'[v] == best[v] then walks[v]
      else var edge :| edge in out && edge.0 == v && best'[v] == Offer(d, e, edge); walks[u] + [edge];
    forall v | v in best' && best'[v].dist.Finite?
      ensures v in walks' && IsWalk(g, s, walks'[v]) && WalkEnd(s, walks'[v]) == v && CostOf(walks'[v]) == best'[v]
    {
      if best'[v] != best[v] {
        var edge :| edge in out && edge.0 == v && best'[v] == Offer(d, e, edge) && walks'[v] == walks[u] + [edge];
        WalkAppend(g, s, walks[u], edge);
      }
    }
  }

  /** Once the queue is empty the labels form a feasible potential, which
      makes them optimal. */
  lemma SearchFinish<V(!new)>(g: WGraph<V>, s: V, best: map<V, Label>, settled: set<V>, floor: Label,
                        walks: map<V, Walk<V>>)
    requires SearchInv(g, s, best, multiset{}, settled, floor, walks)
    ensures IsShortestShortest(g, s, best)
  {
    assert Feasible(g, s, best);
    forall p | IsWalk(g, s, p)
      ensures WalkEnd(s, p) in best && LabelLe(best[WalkEnd(s, p)], CostOf(p))
    {
      PotentialBound(g, s, best, p);
    }
    forall v | v in best && best[v].dist.Finite?
      ensures exists p :: IsWalk(g, s, p) && WalkEnd(s, p) == v && CostOf(p) == best[v]
    {
      assert IsWalk(g, s, walks[v]);
    }
  }

  /** The first time a vertex is popped without being stale, the entry
      carries exactly the vertex's label. */
  lemma FirstPopHasOwnLabel<V>(best: map<V, Label>, pq: Queue<V>, settled: set<V>, floor: Label, top: Entry<V>)
    requires EntriesAbove(best, pq, floor) && PendingQueued(best, pq, settled)
    requires IsMinEntry(top, pq) && top.vertex !in settled
    requires top.vertex in best && !(best[top.vertex].dist.Finite? && top.weight > best[top.vertex].dist.value)
    ensures best[top.vertex] == top.Key()
  {
    var u := top.vertex;
    assert Entry(best[u].dist.value, best[u].edges, u) in pq;
    LabelLeAntisym(best[u], top.Key());
  }

  lemma SettleShrinks<V>(keys: set<V>, settled: set<V>, u: V)
    requires u in keys && u !in settled
    ensures |keys - (settled + {u})| < |keys - settled|
  {
    assert keys - (settled + {u}) == (keys - settled) - {u};
  }

  /** Expanding a popped entry that is not stale (main.py:25-32) keeps the
      invariant: the first time a vertex is expanded it becomes settled, and
      expanding it again changes nothing. Either way the search progresses. */
  lemma ExpandStep<V>(g: WGraph<V>, s: V, best: map<V, Label>, pq: Queue<V>,
                      settled: set<V>, floor: Label, walks: map<V, Walk<V>>, top: Entry<V>,
                      best': map<V, Label>, pq': Queue<V>)
    returns (settled': set<V>, walks': map<V, Walk<V>>)
    requires SearchInv(g, s, best, pq, settled, floor, walks)
    requires IsMinEntry(top, pq)
    requires top.vertex in best && !(best[top.vertex].dist.Finite? && top.weight > best[top.vertex].dist.value)
    requires Relaxed(g[top.vertex], {}, top.weight, top.edges, best, pq - multiset{top}, best', pq')
    ensures SearchInv(g, s, best', pq', settled', top.Key(), walks')
    ensures |g.Keys - settled'| < |g.Keys - settled| || (settled' == settled && |pq'| < |pq|)
  {
    var u := top.vertex;
    var rest := pq - multiset{top};
    if u in settled {
      RepeatExpandIsNoop(g, best, rest, top, best', pq');
      DiscardStep(g, s, best, pq, settled, floor, walks, top);
      settled', walks' := settled, walks;
    } else {
      FirstPopHasOwnLabel(best, pq, settled, floor, top);
      walks' := FirstExpandLabels(g, s, best, pq, settled, floor, walks, top, best', pq');
      FirstExpandQueue(best, pq, settled, floor, top, g[u], best', pq');
      settled' := settled + {u};
      SettleShrinks(g.Keys, settled, u);
    }
  }

  /** The initial labels and queue of main.py:15-18 satisfy the invariant. */
  lemma SearchStartInv<V(!new)>(g: WGraph<V>, s: V, best: map<V, Label>)
    requires WalksStayInGraph(g, s)
    requires best == (map v | v in g :: Label(Infinity, 0))[s := Label(Finite(0), 0)]
    ensures SearchInv(g, s, best, multiset{Entry(0, 0, s)}, {}, Label(Finite(0), 0), map[s := []])
  {
    assert IsWalk(g, s, []);
  }

  /**
   shortest_shortest_path (main.py:4-34). Start every key at (infinity, 0)
   and the source at (0, 0); repeatedly pop a least entry, skip it when it is
   heavier than its vertex's label, and otherwise relax the vertex's
   out-edges, pushing every strictly improved label.
   */
  method ShortestShortestPath<V(==,!new)>(graph: WGraph<V>, source: V) returns (result: map<V, Label>)
    requires WalksStayInGraph(graph, source)
    ensures IsShortestShortest(graph, source, result)
  {
    var best := (map v | v in graph :: Label(Infinity, 0))[source := Label(Finite(0), 0)];
    var pq: Queue<V> := multiset{Entry(0, 0, source)};
    ghost var settled: set<V> := {};
    ghost var floor := Label(Finite(0), 0);
    ghost var walks: map<V, Walk<V>> := map[source := []];
    SearchStartInv(graph, source, best);
    while pq != multiset{}
      invariant SearchInv(graph, source, best, pq, settled, floor, walks)
      decreases |graph.Keys - settled|, |pq|
    {
      MinEntryExists(pq);
      var top :| IsMinEntry(top, pq);
      var d, e, u := top.weight, top.edges, top.vertex;
      var rest := pq - multiset{top};
      PoppedLabel(best, pq, floor, top);
      if best[u].dist.Finite? && d > best[u].dist.value {
        DiscardStep(graph, source, best, pq, settled, floor, walks, top);
        pq, floor := rest, top.Key();
      } else {
        NeighboursInGraph(graph, source, best, walks, u);
        var best', pq' := Expand(graph[u], best, rest, d, e);
        settled, walks := ExpandStep(graph, source, best, pq, settled, floor, walks, top, best', pq');
        best, pq, floor := best', pq', top.Key();
      }
    }
    SearchFinish(graph, source, best, settled, floor, walks);
    result := best;
  }
}
