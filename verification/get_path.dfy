/**
 get_path (main.py:92-106): rebuild the path to a destination from a parent
 table by following parent links back to the root.
 */
module PathReconstruction {
  import opened Options
  import opened Graphs
  import opened Bfs

  /** The reversal of xs (Python's xs[::-1]). */
  function Reverse<T>(xs: seq<T>): (r: seq<T>)
    ensures |r| == |xs|
    ensures forall i | 0 <= i < |xs| :: r[i] == xs[|xs| - 1 - i]
  {
    if |xs| == 0 then [] else Reverse(xs[1..]) + [xs[0]]
  }

  /**
   The ancestors of v, root first, ending with v's parent: the reference
   meaning of get_path for a vertex whose parent chain has length n.
   */
  ghost function Ancestors<V>(parents: map<V, Option<V>>, v: V, n: nat): seq<V>
    requires ChainLen(parents, v, n)
    decreases n
  {
    if n == 0 then [] else Ancestors(parents, parents[v].value, n - 1) + [parents[v].value]
  }

  /**
   get_path (main.py:92-106). Collect the destination and its ancestors by
   following parent links until None, reverse the list and drop its last
   element, the destination itself. The result is the ancestors of the
   destination, root first; it is empty exactly when the destination has no
   parent.
   */
  method GetPath<V(==)>(parents: map<V, Option<V>>, destination: V) returns (r: seq<V>)
    requires exists n :: ChainLen(parents, destination, n)
    ensures forall n | ChainLen(parents, destination, n) :: r == Ancestors(parents, destination, n) && |r| == n
    ensures r == [] <==> parents[destination] == None
  {
    ghost var total: nat :| ChainLen(parents, destination, total);
    var path: seq<V> := [];
    var node: Option<V> := Some(destination);
    ghost var rest: nat := total;
    while node != None
      invariant node.Some? ==> ChainLen(parents, node.value, rest)
      invariant node.Some? ==> Ancestors(parents, node.value, rest) + [node.value] + Reverse(path)
                                 == Ancestors(parents, destination, total) + [destination]
      invariant node.None? ==> Reverse(path) == Ancestors(parents, destination, total) + [destination]
      decreases if node.Some? then rest + 1 else 0
    {
      var x := node.value;
      ReverseSnoc(path, x);
      path := path + [x];
      node := parents[x];
      if node.Some? {
        rest := rest - 1;
      }
    }
    r := Reverse(path)[..|path| - 1];
    forall n | ChainLen(parents, destination, n)
      ensures r == Ancestors(parents, destination, n) && |r| == n
    {
      ChainLenUnique(parents, destination, n, total);
      AncestorsLength(parents, destination, total);
    }
  }

  lemma ReverseSnoc<T>(xs: seq<T>, x: T)
    ensures Reverse(xs + [x]) == [x] + Reverse(xs)
  {
  }

  lemma {:induction false} AncestorsLength<V>(parents: map<V, Option<V>>, v: V, n: nat)
    requires ChainLen(parents, v, n)
    ensures |Ancestors(parents, v, n)| == n
    decreases n
  {
    if n > 0 {
      AncestorsLength(parents, parents[v].value, n - 1);
    }
  }

  /**
   The ancestors of v in a tree of parents, followed by v, form a path of
   g from the root: consecutive vertices are joined by edges.
   */
  lemma {:induction false} AncestorsFormPath<V(!new)>(g: Graph<V>, s: V, parents: map<V, Option<V>>, v: V, n: nat)
    requires ParentEdges(g, s, parents) && ChainLen(parents, v, n)
    ensures |Ancestors(parents, v, n)| == n
    ensures n == 0 ==> v == s
    ensures n > 0 ==> Ancestors(parents, v, n)[0] == s
    ensures IsPath(g, s, (Ancestors(parents, v, n) + [v])[1..])
    decreases n
  {
    AncestorsLength(parents, v, n);
    if n > 0 {
      var u := parents[v].value;
      AncestorsFormPath(g, s, parents, u, n - 1);
      var a := Ancestors(parents, u, n - 1);
      var p := (a + [u])[1..];
      assert (Ancestors(parents, v, n) + [v])[1..] == p + [v];
      assert PathEnd(s, p) == u;
      PathAppend(g, s, p, v);
    }
  }

  /**
   What get_path promises on a tree built by bfs_path (main.py:98-106): the
   vertices it returns, followed by the destination, form a path from the
   source to the destination, and that path has the fewest hops possible;
   it is empty exactly when the destination is the source.
   */
  lemma PathOfTreeIsShortest<V(!new)>(g: Graph<V>, s: V, parents: map<V, Option<V>>, d: V, r: seq<V>)
    requires IsBfsTree(g, s, parents) && d in parents
    requires forall n | ChainLen(parents, d, n) :: r == Ancestors(parents, d, n)
    ensures (r + [d])[0] == s
    ensures IsPath(g, s, (r + [d])[1..]) && PathEnd(s, (r + [d])[1..]) == d
    ensures MinHops(g, s, d, |r|)
    ensures r == [] <==> d == s
  {
    var n :| ChainLen(parents, d, n) && MinHops(g, s, d, n);
    AncestorsFormPath(g, s, parents, d, n);
    if d == s {
      ChainLenUnique(parents, s, 0, n);
    }
  }
}
