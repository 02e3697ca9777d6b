/** Sorting a stored road network by a given order of its nodes: the order of the edges that
    follows from it, and the inverse mappings that both are moved by. */
module GraphSorting {
  import opened Counting
  import opened Permutations
  import opened GraphStores

  /** Each of the first n numbers once. */
  ghost predicate IsOrder(ids: seq<int>, n: nat) {
    |ids| == n && Distinct(ids) && forall e {:trigger e in ids} :: e in ids <==> 0 <= e < n
  }

  ghost predicate Seen(seen: seq<bool>, ids: seq<int>) {
    forall e {:trigger seen[e]} :: 0 <= e < |seen| ==> (seen[e] <==> e in ids)
  }

  /** As many distinct numbers below n as there are. */
  lemma DistinctCount(ids: seq<int>, n: nat)
    requires Distinct(ids) && forall e :: e in ids <==> 0 <= e < n
    ensures |ids| == n
  {
    var s := set e | e in ids;
    DistinctSize(ids);
    assert s == Elements(ids);
    BelowSize(n);
    assert s == Below(n);
  }

  ghost function Elements(ids: seq<int>): set<int> {
    set e | e in ids
  }

  ghost function Below(n: nat): set<int> {
    if n == 0 then {} else Below(n - 1) + {n - 1}
  }

  lemma {:induction false} BelowSize(n: nat)
    ensures |Below(n)| == n && forall e :: e in Below(n) <==> 0 <= e < n
  {
    if n > 0 {
      BelowSize(n - 1);
    }
  }

  lemma {:induction false} DistinctSize(ids: seq<int>)
    requires Distinct(ids)
    ensures |Elements(ids)| == |ids|
  {
    if ids != [] {
      var n := |ids| - 1;
      DistinctSize(ids[..n]);
      assert ids == ids[..n] + [ids[n]];
      assert Elements(ids) == Elements(ids[..n]) + {ids[n]};
      assert ids[n] !in ids[..n];
    } else {
      assert Elements(ids) == {};
    }
  }

  /** The edge is met at the k-th node of the order for the first time. */
  ghost predicate FirstMet(edges: seq<EdgeRecord>, nodeOrder: seq<int>, e: int, k: int) {
    && 0 <= e < |edges| && 0 <= k < |nodeOrder| && edges[e].Touches(nodeOrder[k])
    && forall j {:trigger nodeOrder[j]} :: 0 <= j < k ==> !edges[e].Touches(nodeOrder[j])
  }

  ghost predicate StandsBefore(ids: seq<int>, e: int, f: int) {
    exists a, b {:trigger ids[a], ids[b]} :: 0 <= a < b < |ids| && ids[a] == e && ids[b] == f
  }

  /** At the k-th node e is met for the first time; f is not met earlier, and if it is met there
      for the first time too, e stands before it in the list of that node. */
  ghost predicate MetBeforeAt(edges: seq<EdgeRecord>, adjacency: seq<seq<int>>, nodeOrder: seq<int>, e: int, f: int, k: int) {
    && FirstMet(edges, nodeOrder, e, k) && 0 <= f < |edges|
    && (forall j {:trigger nodeOrder[j]} :: 0 <= j < k ==> !edges[f].Touches(nodeOrder[j]))
    && (edges[f].Touches(nodeOrder[k]) ==> 0 <= nodeOrder[k] < |adjacency| && StandsBefore(adjacency[nodeOrder[k]], e, f))
  }

  ghost predicate MetBefore(edges: seq<EdgeRecord>, adjacency: seq<seq<int>>, nodeOrder: seq<int>, e: int, f: int) {
    exists k :: MetBeforeAt(edges, adjacency, nodeOrder, e, f, k)
  }

  /** The edges stand in the order in which they are first met. */
  ghost predicate InOrderMet(edges: seq<EdgeRecord>, adjacency: seq<seq<int>>, nodeOrder: seq<int>, order: seq<int>) {
    forall x, y {:trigger order[x], order[y]} :: 0 <= x < y < |order| ==> MetBefore(edges, adjacency, nodeOrder, order[x], order[y])
  }

  /** No two edges are each met before the other. */
  lemma MetBeforeOnce(edges: seq<EdgeRecord>, adjacency: seq<seq<int>>, nodeOrder: seq<int>, e: int, f: int)
    requires MetBefore(edges, adjacency, nodeOrder, e, f) && forall u {:trigger adjacency[u]} :: 0 <= u < |adjacency| ==> Distinct(adjacency[u])
    ensures !MetBefore(edges, adjacency, nodeOrder, f, e)
  {
    var k :| MetBeforeAt(edges, adjacency, nodeOrder, e, f, k);
    forall l ensures !MetBeforeAt(edges, adjacency, nodeOrder, f, e, l) {
    }
  }

  /** The edges of the next node that were not met before come after all others. */
  lemma NextNodeMet(edges: seq<EdgeRecord>, adjacency: seq<seq<int>>, nodeOrder: seq<int>, i: nat, order0: seq<int>, order: seq<int>)
    requires i < |nodeOrder| && 0 <= nodeOrder[i] < |adjacency| && InOrderMet(edges, adjacency, nodeOrder, order0)
    requires forall e {:trigger e in order0} :: e in order0 <==> 0 <= e < |edges| && MetAmong(edges, nodeOrder, i, e)
    requires |order0| <= |order| && order[..|order0|] == order0 && Distinct(order)
    requires forall x :: |order0| <= x < |order| ==> 0 <= order[x] < |edges| && edges[order[x]].Touches(nodeOrder[i])
    requires forall x, y {:trigger order[x], order[y]} :: |order0| <= x < y < |order| ==> StandsBefore(adjacency[nodeOrder[i]], order[x], order[y])
    ensures InOrderMet(edges, adjacency, nodeOrder, order)
  {
    var n := |order0|;
    forall x | n <= x < |order| ensures FirstMet(edges, nodeOrder, order[x], i) {
      forall z | 0 <= z < n ensures order0[z] != order[x] {
        assert order0[z] == order[..n][z] == order[z];
      }
      assert order[x] !in order0 && !MetAmong(edges, nodeOrder, i, order[x]);
    }
    forall x, y | 0 <= x < y < |order| ensures MetBefore(edges, adjacency, nodeOrder, order[x], order[y]) {
      if y < n {
        assert order[x] == order0[x] && order[y] == order0[y];
      } else if x < n {
        assert order[x] == order0[x] && order[x] in order0;
        var k := FirstAmong(edges, nodeOrder, i, order[x]);
        assert MetBeforeAt(edges, adjacency, nodeOrder, order[x], order[y], k);
      } else {
        assert MetBeforeAt(edges, adjacency, nodeOrder, order[x], order[y], i);
      }
    }
  }

  /** The edge is met at one of the first i nodes. */
  ghost predicate MetAmong(edges: seq<EdgeRecord>, nodeOrder: seq<int>, i: nat, e: int)
    requires i <= |nodeOrder| && 0 <= e < |edges|
  {
    exists k {:trigger nodeOrder[k]} :: 0 <= k < i && edges[e].Touches(nodeOrder[k])
  }

  lemma FirstAmong(edges: seq<EdgeRecord>, nodeOrder: seq<int>, i: nat, e: int) returns (k: int)
    requires i <= |nodeOrder| && 0 <= e < |edges| && MetAmong(edges, nodeOrder, i, e)
    ensures 0 <= k < i && FirstMet(edges, nodeOrder, e, k)
  {
    k := 0;
    while !edges[e].Touches(nodeOrder[k])
      invariant 0 <= k < i && MetAmong(edges, nodeOrder, i, e)
      invariant forall j {:trigger nodeOrder[j]} :: 0 <= j < k ==> !edges[e].Touches(nodeOrder[j])
      decreases i - k
    {
      k := k + 1;
    }
  }

  /** The edges in the order in which they are first met along the nodes. */
  method BuildEdgeOrder(graph: BaseGraphNodesAndEdges, nodeOrder: seq<int>) returns (edgeOrder: seq<int>)
    requires graph.Valid() && IsOrder(nodeOrder, graph.nodes.Length)
    ensures IsOrder(edgeOrder, graph.edges.Length) && InOrderMet(graph.edges[..], graph.adjacency, nodeOrder, edgeOrder)
  {
    var seen := new bool[graph.edges.Length](_ => false);
    ghost var edges := graph.edges[..];
    edgeOrder := [];
    for i := 0 to |nodeOrder|
      invariant seen.Length == |edges| && Distinct(edgeOrder) && Seen(seen[..], edgeOrder)
      invariant forall e {:trigger e in edgeOrder} :: e in edgeOrder <==> 0 <= e < |edges| && MetAmong(edges, nodeOrder, i, e)
      invariant InOrderMet(edges, graph.adjacency, nodeOrder, edgeOrder)
    {
      assert nodeOrder[i] in nodeOrder;
      var ids := graph.EdgesOf(nodeOrder[i]);
      assert ChainOk(edges, graph.nodes[..][nodeOrder[i]].edgeRef, nodeOrder[i], ids);
      ghost var before := edgeOrder;
      edgeOrder := AddUnseen(ids, seen, edgeOrder);
      NextNodeMet(edges, graph.adjacency, nodeOrder, i, before, edgeOrder);
      forall e ensures e in edgeOrder <==> 0 <= e < |edges| && MetAmong(edges, nodeOrder, i + 1, e) {
        assert e in before <==> 0 <= e < |edges| && MetAmong(edges, nodeOrder, i, e);
      }
    }
    AllMet(edges, graph.nodes.Length, nodeOrder, edgeOrder);
  }

  lemma AllMet(edges: seq<EdgeRecord>, nodes: nat, nodeOrder: seq<int>, edgeOrder: seq<int>)
    requires EndsOk(edges, nodes) && IsOrder(nodeOrder, nodes) && Distinct(edgeOrder)
    requires forall e {:trigger e in edgeOrder} :: e in edgeOrder <==> 0 <= e < |edges| && MetAmong(edges, nodeOrder, |nodeOrder|, e)
    ensures IsOrder(edgeOrder, |edges|)
  {
    forall e | 0 <= e < |edges| ensures e in edgeOrder {
      assert edges[e].nodeA in nodeOrder;
      var k :| 0 <= k < |nodeOrder| && nodeOrder[k] == edges[e].nodeA;
    }
    DistinctCount(edgeOrder, |edges|);
  }

  /** Appends the edges that were not seen before, in the order of the list. */
  method AddUnseen(ids: seq<int>, seen: array<bool>, order0: seq<int>) returns (order: seq<int>)
    requires (forall e :: e in ids ==> 0 <= e < seen.Length) && (forall e :: e in order0 ==> 0 <= e < seen.Length)
    requires Distinct(order0) && Seen(seen[..], order0)
    modifies seen
    ensures Distinct(order) && Seen(seen[..], order)
    ensures forall e {:trigger e in order} :: e in order <==> e in order0 || e in ids
    ensures |order0| <= |order| && order[..|order0|] == order0 && Follows(ids, order, |order0|)
  {
    order := order0;
    for j := 0 to |ids|
      invariant Distinct(order) && Seen(seen[..], order)
      invariant forall e {:trigger e in order} :: e in order <==> e in order0 || e in ids[..j]
      invariant |order0| <= |order| && order[..|order0|] == order0 && Follows(ids[..j], order, |order0|)
    {
      var edge := ids[j];
      assert edge in ids && seen[..][edge] == seen[edge];
      FollowsNext(ids, j, order, |order0|);
      if !seen[edge] {
        AppendedDistinct(order, edge);
        order := order + [edge];
        seen[edge] := true;
      }
      assert ids[..j + 1] == ids[..j] + [edge];
    }
    assert ids[..|ids|] == ids;
  }

  /** From place n on the order has edges of the list, in the order of the list. */
  ghost predicate Follows(ids: seq<int>, order: seq<int>, n: nat) {
    && (forall x {:trigger order[x]} :: n <= x < |order| ==> order[x] in ids)
    && forall x, y {:trigger order[x], order[y]} :: n <= x < y < |order| ==> StandsBefore(ids, order[x], order[y])
  }

  lemma FollowsNext(ids: seq<int>, j: nat, order: seq<int>, n: nat)
    requires j < |ids| && n <= |order| && Follows(ids[..j], order, n)
    ensures Follows(ids[..j + 1], order, n) && Follows(ids[..j + 1], order + [ids[j]], n)
  {
    var more, longer := ids[..j + 1], order + [ids[j]];
    assert more == ids[..j] + [ids[j]];
    forall x, y | n <= x < y < |longer| ensures StandsBefore(more, longer[x], longer[y]) {
      assert longer[x] == order[x];
      if y < |order| {
        assert longer[y] == order[y] && StandsBefore(ids[..j], order[x], order[y]);
        var a, b :| 0 <= a < b < j && ids[..j][a] == order[x] && ids[..j][b] == order[y];
        assert more[a] == order[x] && more[b] == order[y];
      } else {
        var a :| 0 <= a < j && ids[..j][a] == order[x];
        assert more[a] == order[x] && more[j] == longer[y];
      }
    }
    forall x, y | n <= x < y < |order| ensures StandsBefore(more, order[x], order[y]) {
      assert longer[x] == order[x] && longer[y] == order[y];
    }
  }

  /** The place of each number in the order. */
  method InvertPermutation(perm: seq<int>) returns (inv: seq<int>)
    requires IsOrder(perm, |perm|)
    ensures |inv| == |perm| && forall i :: 0 <= i < |perm| ==> 0 <= perm[i] < |perm| && inv[perm[i]] == i
    ensures IsPermutation(At(inv), |inv|)
  {
    inv := seq(|perm|, _ => 0);
    var i := 0;
    while i < |perm|
      invariant 0 <= i <= |perm| == |inv|
      invariant forall j :: 0 <= j < i ==> 0 <= perm[j] < |perm| && inv[perm[j]] == j
    {
      assert perm[i] in perm;
      inv := inv[perm[i] := i];
      i := i + 1;
    }
    forall v | 0 <= v < |inv| ensures 0 <= inv[v] < |inv| && perm[inv[v]] == v {
      assert v in perm;
      var j :| 0 <= j < |perm| && perm[j] == v;
    }
  }

  function At(s: seq<int>): int -> int {
    i => if 0 <= i < |s| then s[i] else i
  }

  /** The same connection between the renumbered nodes. */
  predicate SameLink(before: EdgeRecord, now: EdgeRecord, q: int -> int) {
    now.nodeA == q(before.nodeA) && now.nodeB == q(before.nodeB) && now.data == before.data
  }

  /** Sorts the network by an order of its nodes: an isomorphic one, in which each node has the
      images of its edges in the same order as before. */
  method SortGraph(graph: BaseGraphNodesAndEdges, nodeOrder: seq<int>) returns (newNodes: seq<int>, newEdges: seq<int>)
    requires graph.Valid() && IsOrder(nodeOrder, graph.nodes.Length)
    modifies graph`adjacency, graph.edges, graph.nodes
    ensures graph.Valid() && |newNodes| == graph.nodes.Length && |newEdges| == graph.edges.Length
    ensures IsPermutation(At(newNodes), |newNodes|) && IsPermutation(At(newEdges), |newEdges|)
    ensures forall i :: 0 <= i < |nodeOrder| ==> 0 <= nodeOrder[i] < |newNodes| && newNodes[nodeOrder[i]] == i
    ensures forall u :: 0 <= u < |newNodes| ==>
              0 <= newNodes[u] < |newNodes| && graph.adjacency[newNodes[u]] == Image(old(graph.adjacency)[u], At(newEdges))
    ensures forall e :: 0 <= e < |newEdges| ==>
              0 <= newEdges[e] < |newEdges| && SameLink(old(graph.edges[e]), graph.edges[newEdges[e]], At(newNodes))
    ensures forall e, f {:trigger newEdges[e], newEdges[f]} :: 0 <= e < |newEdges| && 0 <= f < |newEdges| ==>
              (newEdges[e] < newEdges[f] <==> MetBefore(old(graph.edges[..]), old(graph.adjacency), nodeOrder, e, f))
  {
    ghost var e0, a0 := graph.edges[..], graph.adjacency;
    var edgeOrder := BuildEdgeOrder(graph, nodeOrder);
    newNodes := InvertPermutation(nodeOrder);
    newEdges := InvertPermutation(edgeOrder);
    PlacesOfMet(e0, graph.nodes[..], a0, nodeOrder, edgeOrder, newEdges);
    graph.SortEdges(At(newEdges));
    ghost var e1, a1 := graph.edges[..], graph.adjacency;
    graph.RelabelNodes(At(newNodes));
    forall u | 0 <= u < |newNodes|
      ensures 0 <= newNodes[u] < |newNodes| && graph.adjacency[newNodes[u]] == Image(a0[u], At(newEdges))
    {
      assert At(newNodes)(u) == newNodes[u];
    }
    SortedRecords(e0, e1, graph.edges[..], At(newNodes), At(newEdges), |newNodes|);
    assert forall e :: 0 <= e < |newEdges| ==> At(newEdges)(e) == newEdges[e];
  }

  /** The places of the edges in the order compare as the edges are met. */
  lemma PlacesOfMet(edges: seq<EdgeRecord>, nodes: seq<NodeRecord>, adjacency: seq<seq<int>>, nodeOrder: seq<int>, order: seq<int>, places: seq<int>)
    requires StoreOk(edges, nodes, adjacency) && InOrderMet(edges, adjacency, nodeOrder, order) && |order| == |places|
    requires forall i :: 0 <= i < |order| ==> 0 <= order[i] < |order| && places[order[i]] == i
    requires forall e {:trigger e in order} :: e in order <==> 0 <= e < |places|
    ensures forall e, f {:trigger places[e], places[f]} :: 0 <= e < |places| && 0 <= f < |places| ==>
              (places[e] < places[f] <==> MetBefore(edges, adjacency, nodeOrder, e, f))
  {
    forall e, f | 0 <= e < |places| && 0 <= f < |places|
      ensures places[e] < places[f] <==> MetBefore(edges, adjacency, nodeOrder, e, f)
    {
      assert e in order && f in order;
      var x :| 0 <= x < |order| && order[x] == e;
      var y :| 0 <= y < |order| && order[y] == f;
      ListsDistinct(edges, nodes, adjacency);
      if y < x {
        MetBeforeOnce(edges, adjacency, nodeOrder, f, e);
      } else if x == y {
        if MetBefore(edges, adjacency, nodeOrder, e, e) {
          MetBeforeOnce(edges, adjacency, nodeOrder, e, e);
        }
      }
    }
  }

  lemma ListsDistinct(edges: seq<EdgeRecord>, nodes: seq<NodeRecord>, adjacency: seq<seq<int>>)
    requires StoreOk(edges, nodes, adjacency)
    ensures forall u {:trigger adjacency[u]} :: 0 <= u < |adjacency| ==> Distinct(adjacency[u])
  {
    forall u | 0 <= u < |adjacency| ensures Distinct(adjacency[u]) {
      assert ChainOk(edges, nodes[u].edgeRef, u, adjacency[u]);
    }
  }

  lemma SortedRecords(e0: seq<EdgeRecord>, e1: seq<EdgeRecord>, e2: seq<EdgeRecord>, q: int -> int, p: int -> int, nodes: nat)
    requires EdgesMoved(e0, e1, p) && EdgesRelabelled(e1, e2, q, nodes)
    ensures forall e :: 0 <= e < |e0| ==> 0 <= p(e) < |e2| && SameLink(e0[e], e2[p(e)], q)
  {
    forall e | 0 <= e < |e0|
      ensures 0 <= p(e) < |e2| && SameLink(e0[e], e2[p(e)], q)
    {
      assert e1[p(e)] == StoredAgain(e0[e], p);
      assert e2[p(e)] == Relabelled(e1[p(e)], q);
    }
  }
}
