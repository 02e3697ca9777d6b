/** The stored road network: records of nodes and edges, the edges of a node threaded through the
    edge records, and the sorting of both in place. */
module GraphStores {
  import opened Counting
  import opened Permutations

  const NO_EDGE := -1

  /** An edge with the next edges of its two ends; data stands for what else is stored. */
  datatype EdgeRecord = EdgeRecord(nodeA: int, nodeB: int, linkA: int, linkB: int, data: int) {
    predicate Touches(node: int) {
      nodeA == node || nodeB == node
    }

    /** The next edge of the node. */
    function Link(node: int): int {
      if node == nodeA then linkA else linkB
    }

    function Adj(node: int): int {
      if node == nodeA then nodeB else nodeA
    }
  }

  datatype NodeRecord = NodeRecord(edgeRef: int, data: int)

  /** From the given edge on, the links of the node lead through exactly these edges. */
  ghost predicate Chain(edges: seq<EdgeRecord>, node: int, ref: int, ids: seq<int>)
    decreases |ids|
  {
    if ids == [] then ref == NO_EDGE
    else ref == ids[0] && 0 <= ref < |edges| && edges[ref].Touches(node) && Chain(edges, node, edges[ref].Link(node), ids[1..])
  }

  /** The chain of a node has each of its edges once. */
  ghost predicate ChainOk(edges: seq<EdgeRecord>, ref: int, node: int, ids: seq<int>) {
    && Chain(edges, node, ref, ids) && Distinct(ids)
    && forall e {:trigger e in ids} :: e in ids <==> 0 <= e < |edges| && edges[e].Touches(node)
  }

  ghost predicate EndsOk(edges: seq<EdgeRecord>, nodes: nat) {
    forall e {:trigger edges[e]} :: 0 <= e < |edges| ==> 0 <= edges[e].nodeA < nodes && 0 <= edges[e].nodeB < nodes && edges[e].nodeA != edges[e].nodeB
  }

  ghost predicate StoreOk(edges: seq<EdgeRecord>, nodes: seq<NodeRecord>, adjacency: seq<seq<int>>) {
    && EndsOk(edges, |nodes|) && |adjacency| == |nodes|
    && forall u {:trigger adjacency[u]} :: 0 <= u < |nodes| ==> ChainOk(edges, nodes[u].edgeRef, u, adjacency[u])
  }

  lemma {:induction false} ChainMembers(edges: seq<EdgeRecord>, node: int, ref: int, ids: seq<int>)
    requires Chain(edges, node, ref, ids)
    ensures forall i :: 0 <= i < |ids| ==> 0 <= ids[i] < |edges| && edges[ids[i]].Touches(node)
    decreases |ids|
  {
    if ids != [] {
      ChainMembers(edges, node, edges[ref].Link(node), ids[1..]);
      forall i | 0 <= i < |ids| ensures 0 <= ids[i] < |edges| && edges[ids[i]].Touches(node) {
        if i > 0 { assert ids[i] == ids[1..][i - 1]; }
      }
    }
  }

  // ----- a new edge

  lemma {:induction false} ChainKept(edges: seq<EdgeRecord>, r: EdgeRecord, node: int, ref: int, ids: seq<int>)
    requires Chain(edges, node, ref, ids)
    ensures Chain(edges + [r], node, ref, ids)
    decreases |ids|
  {
    if ids != [] {
      ChainKept(edges, r, node, edges[ref].Link(node), ids[1..]);
    }
  }

  /** The lists of a node after an edge was added: the edge comes first where it touches. */
  function WithEdge(r: EdgeRecord, id: int, node: int, ids: seq<int>): seq<int> {
    if r.Touches(node) then [id] + ids else ids
  }

  lemma ChainExtended(edges: seq<EdgeRecord>, r: EdgeRecord, ref: int, node: int, ids: seq<int>)
    requires ChainOk(edges, ref, node, ids) && (r.Touches(node) ==> r.Link(node) == ref)
    ensures ChainOk(edges + [r], if r.Touches(node) then |edges| else ref, node, WithEdge(r, |edges|, node, ids))
  {
    ChainKept(edges, r, node, ref, ids);
    var ids' := WithEdge(r, |edges|, node, ids);
    if r.Touches(node) {
      assert ids'[1..] == ids;
    }
    forall e ensures e in ids' <==> 0 <= e < |edges| + 1 && (edges + [r])[e].Touches(node) {
      assert e in ids <==> 0 <= e < |edges| && edges[e].Touches(node);
    }
    forall i, j | 0 <= i < j < |ids'| ensures ids'[i] != ids'[j] {
      if r.Touches(node) {
        assert ids'[j] == ids[j - 1] && ids[j - 1] in ids;
        if i > 0 { assert ids'[i] == ids[i - 1]; }
      }
    }
  }

  // ----- edges in another order

  function Remapped(edge: int, p: int -> int): int {
    if edge == NO_EDGE then NO_EDGE else p(edge)
  }

  function StoredAgain(r: EdgeRecord, p: int -> int): EdgeRecord {
    r.(linkA := Remapped(r.linkA, p), linkB := Remapped(r.linkB, p))
  }

  ghost function Image(ids: seq<int>, p: int -> int): seq<int> {
    seq(|ids|, i requires 0 <= i < |ids| => p(ids[i]))
  }

  ghost predicate EdgesMoved(edges: seq<EdgeRecord>, edges': seq<EdgeRecord>, p: int -> int) {
    && IsPermutation(p, |edges|) && |edges'| == |edges|
    && forall e {:trigger p(e)} :: 0 <= e < |edges| ==> 0 <= p(e) < |edges| && edges'[p(e)] == StoredAgain(edges[e], p)
  }

  lemma {:induction false} ChainMoved(edges: seq<EdgeRecord>, edges': seq<EdgeRecord>, p: int -> int, node: int, ref: int, ids: seq<int>)
    requires EdgesMoved(edges, edges', p) && Chain(edges, node, ref, ids)
    ensures Chain(edges', node, Remapped(ref, p), Image(ids, p))
    decreases |ids|
  {
    if ids != [] {
      var next := edges[ref].Link(node);
      assert edges'[p(ref)] == StoredAgain(edges[ref], p);
      ChainMoved(edges, edges', p, node, next, ids[1..]);
      assert Image(ids, p)[1..] == Image(ids[1..], p);
      assert edges'[p(ref)].Link(node) == Remapped(next, p);
    }
  }

  /** In the new order, the chain of a node is the image of the old one. */
  lemma ChainOkMoved(edges: seq<EdgeRecord>, edges': seq<EdgeRecord>, p: int -> int, ref: int, node: int, ids: seq<int>)
    requires EdgesMoved(edges, edges', p) && ChainOk(edges, ref, node, ids)
    ensures ChainOk(edges', Remapped(ref, p), node, Image(ids, p))
  {
    ChainMoved(edges, edges', p, node, ref, ids);
    ChainMembers(edges, node, ref, ids);
    var ids' := Image(ids, p);
    forall i, j | 0 <= i < j < |ids'| ensures ids'[i] != ids'[j] {
      assert p(ids[i]) != p(ids[j]);
    }
    forall e ensures e in ids' <==> 0 <= e < |edges'| && edges'[e].Touches(node) {
      if e in ids' {
        var i :| 0 <= i < |ids'| && ids'[i] == e;
        assert edges'[p(ids[i])] == StoredAgain(edges[ids[i]], p);
      }
      if 0 <= e < |edges'| && edges'[e].Touches(node) {
        var x := Onto(p, |edges|, e);
        assert x in ids;
        var i :| 0 <= i < |ids| && ids[i] == x;
        assert ids'[i] == e;
      }
    }
  }

  // ----- nodes with other numbers

  function Relabelled(r: EdgeRecord, p: int -> int): EdgeRecord {
    r.(nodeA := p(r.nodeA), nodeB := p(r.nodeB))
  }

  ghost predicate EdgesRelabelled(edges: seq<EdgeRecord>, edges': seq<EdgeRecord>, p: int -> int, nodes: nat) {
    && IsPermutation(p, nodes) && EndsOk(edges, nodes) && |edges'| == |edges|
    && forall e {:trigger edges'[e]} :: 0 <= e < |edges| ==> edges'[e] == Relabelled(edges[e], p)
  }

  lemma TouchesRelabelled(r: EdgeRecord, p: int -> int, nodes: nat, u: int)
    requires IsPermutation(p, nodes) && 0 <= u < nodes && 0 <= r.nodeA < nodes && 0 <= r.nodeB < nodes
    ensures Relabelled(r, p).Touches(p(u)) <==> r.Touches(u)
    ensures Relabelled(r, p).Link(p(u)) == r.Link(u)
  {
  }

  lemma {:induction false} ChainRelabelled(edges: seq<EdgeRecord>, edges': seq<EdgeRecord>, p: int -> int, nodes: nat, node: int, ref: int, ids: seq<int>)
    requires EdgesRelabelled(edges, edges', p, nodes) && 0 <= node < nodes && Chain(edges, node, ref, ids)
    ensures Chain(edges', p(node), ref, ids)
    decreases |ids|
  {
    if ids != [] {
      TouchesRelabelled(edges[ref], p, nodes, node);
      ChainRelabelled(edges, edges', p, nodes, node, edges[ref].Link(node), ids[1..]);
    }
  }

  lemma ChainOkRelabelled(edges: seq<EdgeRecord>, edges': seq<EdgeRecord>, p: int -> int, nodes: nat, ref: int, node: int, ids: seq<int>)
    requires EdgesRelabelled(edges, edges', p, nodes) && 0 <= node < nodes && ChainOk(edges, ref, node, ids)
    ensures ChainOk(edges', ref, p(node), ids)
  {
    ChainRelabelled(edges, edges', p, nodes, node, ref, ids);
    forall e ensures e in ids <==> 0 <= e < |edges'| && edges'[e].Touches(p(node)) {
      if 0 <= e < |edges| {
        TouchesRelabelled(edges[e], p, nodes, node);
      }
    }
  }

  // ----- the store

  class BaseGraphNodesAndEdges {
    var edges: array<EdgeRecord>
    var nodes: array<NodeRecord>
    ghost var adjacency: seq<seq<int>>  // the edges of each node, in the order of its chain

    ghost predicate Valid()
      reads this, edges, nodes
    {
      StoreOk(edges[..], nodes[..], adjacency)
    }

    constructor ()
      ensures Valid() && edges.Length == 0 && nodes.Length == 0 && fresh(edges) && fresh(nodes)
    {
      edges, nodes, adjacency := new EdgeRecord[0], new NodeRecord[0], [];
    }

    /** Makes room for a node, and for those before it. */
    method EnsureNodeCapacity(node: int)
      requires Valid() && node >= 0
      modifies this`nodes, this`adjacency
      ensures Valid() && nodes.Length == (if node < old(nodes).Length then old(nodes).Length else node + 1)
      ensures nodes[..old(nodes).Length] == old(nodes[..]) && adjacency[..old(nodes).Length] == old(adjacency)
      ensures forall u :: old(nodes).Length <= u < nodes.Length ==> adjacency[u] == []
      ensures nodes == old(nodes) || fresh(nodes)
    {
      if node < nodes.Length {
        return;
      }
      var n := nodes.Length;
      ghost var e0, n0 := edges[..], nodes[..];
      var grown := new NodeRecord[node + 1](_ => NodeRecord(NO_EDGE, 0));
      forall u | 0 <= u < n {
        grown[u] := nodes[u];
      }
      assert edges[..] == e0 && nodes[..] == n0;
      NodesAdded(e0, n0, adjacency, grown[..]);
      nodes := grown;
      adjacency := adjacency + seq(node + 1 - n, _ => []);
    }

    /** Adds an edge; it comes first in the lists of its ends. */
    method Edge(nodeA: int, nodeB: int, data: int) returns (id: int)
      requires Valid() && nodeA >= 0 && nodeB >= 0 && nodeA != nodeB
      modifies this, nodes
      ensures Valid() && id == old(edges).Length && edges.Length == id + 1 && edges[..id] == old(edges[..])
      ensures edges[id].nodeA == nodeA && edges[id].nodeB == nodeB && edges[id].data == data
      ensures |adjacency| == (var m := if nodeA >= nodeB then nodeA else nodeB; if m < |old(adjacency)| then |old(adjacency)| else m + 1)
      ensures forall u :: 0 <= u < |adjacency| ==>
                adjacency[u] == (if u == nodeA || u == nodeB then [id] else []) + (if u < |old(adjacency)| then old(adjacency)[u] else [])
    {
      EnsureNodeCapacity(if nodeA >= nodeB then nodeA else nodeB);
      ghost var lists := adjacency;
      id := edges.Length;
      var r := EdgeRecord(nodeA, nodeB, nodes[nodeA].edgeRef, nodes[nodeB].edgeRef, data);
      EdgeAdded(edges[..], nodes[..], adjacency, r);
      Append(r);
      ghost var n0 := nodes[..];
      nodes[nodeA] := nodes[nodeA].(edgeRef := id);
      nodes[nodeB] := nodes[nodeB].(edgeRef := id);
      assert nodes[..] == RefsWithEdge(n0, r, id);
      adjacency := ListsWithEdge(adjacency, r, id);
    }

    method Append(r: EdgeRecord)
      modifies this`edges
      ensures edges[..] == old(edges[..]) + [r] && fresh(edges)
    {
      var n := edges.Length;
      var grown := new EdgeRecord[n + 1](_ => r);
      forall e | 0 <= e < n {
        grown[e] := edges[e];
      }
      edges := grown;
    }

    /** Gives the edges new numbers: each record moves to its new place, and all references follow. */
    method SortEdges(p: int -> int)
      requires Valid() && IsPermutation(p, edges.Length)
      modifies this`adjacency, edges, nodes
      ensures Valid() && adjacency == Images(old(adjacency), p)
      ensures EdgesMoved(old(edges[..]), edges[..], p)
      ensures nodes[..] == RefsRemapped(old(nodes[..]), p)
    {
      ghost var e0, n0 := edges[..], nodes[..];
      Permute(edges, p, r => StoredAgain(r, p));
      assert nodes[..] == n0;
      ghost var e1 := edges[..];
      RemapRefs(p);
      assert edges[..] == e1;
      SortedOk(e0, n0, adjacency, p, e1, r => StoredAgain(r, p));
      adjacency := Images(adjacency, p);
    }

    method RemapRefs(p: int -> int)
      modifies nodes
      ensures nodes[..] == RefsRemapped(old(nodes[..]), p)
    {
      var u := 0;
      while u < nodes.Length
        modifies nodes
        invariant 0 <= u <= nodes.Length
        invariant forall v :: 0 <= v < u ==> nodes[v] == RefRemapped(old(nodes[v]), p)
        invariant forall v :: u <= v < nodes.Length ==> nodes[v] == old(nodes[v])
      {
        nodes[u] := RefRemapped(nodes[u], p);
        u := u + 1;
      }
    }

    /** Gives the nodes new numbers: each node takes its record and its list of edges along. */
    method RelabelNodes(p: int -> int)
      requires Valid() && IsPermutation(p, nodes.Length)
      modifies this`adjacency, edges, nodes
      ensures Valid() && EdgesRelabelled(old(edges[..]), edges[..], p, nodes.Length)
      ensures NodesMoved(old(nodes[..]), old(adjacency), nodes[..], adjacency, p)
    {
      ghost var e0, n0 := edges[..], nodes[..];
      RelabelEnds(p);
      assert nodes[..] == n0;
      ghost var e1 := edges[..];
      Permute(nodes, p, r => r);
      assert edges[..] == e1;
      ghost var lists := Rearranged(adjacency, p);
      NodesMovedOk(e0, n0, adjacency, p, e1, nodes[..], lists, r => r);
      adjacency := lists;
    }

    method RelabelEnds(p: int -> int)
      modifies edges
      ensures edges[..] == AllRelabelled(old(edges[..]), p)
    {
      var e := 0;
      while e < edges.Length
        modifies edges
        invariant 0 <= e <= edges.Length
        invariant forall x :: 0 <= x < e ==> edges[x] == Relabelled(old(edges[x]), p)
        invariant forall x :: e <= x < edges.Length ==> edges[x] == old(edges[x])
      {
        edges[e] := Relabelled(edges[e], p);
        e := e + 1;
      }
    }

    /** Reads the edges of a node off its chain. */
    method EdgesOf(node: int) returns (ids: seq<int>)
      requires Valid() && 0 <= node < nodes.Length
      ensures ids == adjacency[node]
    {
      ids := [];
      var next := nodes[node].edgeRef;
      ghost var rest := adjacency[node];
      assert ChainOk(edges[..], nodes[..][node].edgeRef, node, adjacency[node]);
      while next != NO_EDGE
        invariant ids + rest == adjacency[node] && Chain(edges[..], node, next, rest)
        decreases |rest|
      {
        ids := ids + [next];
        next := edges[next].Link(node);
        rest := rest[1..];
      }
    }
  }

  lemma NodesAdded(edges: seq<EdgeRecord>, nodes: seq<NodeRecord>, adjacency: seq<seq<int>>, grown: seq<NodeRecord>)
    requires StoreOk(edges, nodes, adjacency) && |grown| >= |nodes| && grown[..|nodes|] == nodes
    requires forall u :: |nodes| <= u < |grown| ==> grown[u].edgeRef == NO_EDGE
    ensures StoreOk(edges, grown, adjacency + seq(|grown| - |nodes|, _ => []))
  {
    var adjacency' := adjacency + seq(|grown| - |nodes|, _ => []);
    forall u | 0 <= u < |grown| ensures ChainOk(edges, grown[u].edgeRef, u, adjacency'[u]) {
      if u < |nodes| {
        assert ChainOk(edges, nodes[u].edgeRef, u, adjacency[u]) && grown[..|nodes|][u] == grown[u];
      } else {
        assert adjacency'[u] == [];
      }
    }
  }

  function RefsWithEdge(nodes: seq<NodeRecord>, r: EdgeRecord, id: int): seq<NodeRecord> {
    seq(|nodes|, u requires 0 <= u < |nodes| => if r.Touches(u) then nodes[u].(edgeRef := id) else nodes[u])
  }

  ghost function ListsWithEdge(adjacency: seq<seq<int>>, r: EdgeRecord, id: int): seq<seq<int>> {
    seq(|adjacency|, u requires 0 <= u < |adjacency| => WithEdge(r, id, u, adjacency[u]))
  }

  /** An edge that is linked to the first edges of its ends becomes the first itself. */
  lemma EdgeAdded(edges: seq<EdgeRecord>, nodes: seq<NodeRecord>, adjacency: seq<seq<int>>, r: EdgeRecord)
    requires StoreOk(edges, nodes, adjacency) && 0 <= r.nodeA < |nodes| && 0 <= r.nodeB < |nodes| && r.nodeA != r.nodeB
    requires r.linkA == nodes[r.nodeA].edgeRef && r.linkB == nodes[r.nodeB].edgeRef
    ensures StoreOk(edges + [r], RefsWithEdge(nodes, r, |edges|), ListsWithEdge(adjacency, r, |edges|))
  {
    forall u | 0 <= u < |nodes|
      ensures ChainOk(edges + [r], RefsWithEdge(nodes, r, |edges|)[u].edgeRef, u, ListsWithEdge(adjacency, r, |edges|)[u])
    {
      assert ChainOk(edges, nodes[u].edgeRef, u, adjacency[u]);
      ChainExtended(edges, r, nodes[u].edgeRef, u, adjacency[u]);
    }
  }

  function RefRemapped(r: NodeRecord, p: int -> int): NodeRecord {
    r.(edgeRef := Remapped(r.edgeRef, p))
  }

  function RefsRemapped(nodes: seq<NodeRecord>, p: int -> int): seq<NodeRecord> {
    seq(|nodes|, u requires 0 <= u < |nodes| => RefRemapped(nodes[u], p))
  }

  lemma SortedOk(edges: seq<EdgeRecord>, nodes: seq<NodeRecord>, adjacency: seq<seq<int>>, p: int -> int,
                 edges': seq<EdgeRecord>, store: EdgeRecord -> EdgeRecord)
    requires StoreOk(edges, nodes, adjacency) && IsPermutation(p, |edges|) && Permuted(edges, edges', p, store)
    requires forall r :: store(r) == StoredAgain(r, p)
    ensures EdgesMoved(edges, edges', p) && StoreOk(edges', RefsRemapped(nodes, p), Images(adjacency, p))
  {
    EdgesMovedOk(edges, nodes, adjacency, p, edges', RefsRemapped(nodes, p));
  }

  lemma EdgesMovedOk(edges: seq<EdgeRecord>, nodes: seq<NodeRecord>, adjacency: seq<seq<int>>, p: int -> int, edges': seq<EdgeRecord>, nodes': seq<NodeRecord>)
    requires StoreOk(edges, nodes, adjacency) && EdgesMoved(edges, edges', p) && nodes' == RefsRemapped(nodes, p)
    ensures StoreOk(edges', nodes', Images(adjacency, p))
  {
    forall u | 0 <= u < |nodes| ensures ChainOk(edges', nodes'[u].edgeRef, u, Images(adjacency, p)[u]) {
      assert ChainOk(edges, nodes[u].edgeRef, u, adjacency[u]);
      ChainOkMoved(edges, edges', p, nodes[u].edgeRef, u, adjacency[u]);
    }
    forall e | 0 <= e < |edges'| ensures 0 <= edges'[e].nodeA < |nodes| && 0 <= edges'[e].nodeB < |nodes| && edges'[e].nodeA != edges'[e].nodeB {
      var x := Onto(p, |edges|, e);
      assert edges'[p(x)] == StoredAgain(edges[x], p);
    }
  }

  ghost function Images(adjacency: seq<seq<int>>, p: int -> int): seq<seq<int>> {
    seq(|adjacency|, u requires 0 <= u < |adjacency| => Image(adjacency[u], p))
  }

  function AllRelabelled(edges: seq<EdgeRecord>, p: int -> int): seq<EdgeRecord> {
    seq(|edges|, e requires 0 <= e < |edges| => Relabelled(edges[e], p))
  }

  /** Each node took its record and its list along. */
  ghost predicate NodesMoved(nodes: seq<NodeRecord>, adjacency: seq<seq<int>>, nodes': seq<NodeRecord>, adjacency': seq<seq<int>>, p: int -> int) {
    && |nodes'| == |adjacency'| == |nodes| == |adjacency|
    && forall u {:trigger p(u)} :: 0 <= u < |nodes| ==> 0 <= p(u) < |nodes| && nodes'[p(u)] == nodes[u] && adjacency'[p(u)] == adjacency[u]
  }

  lemma NodesMovedOk(edges: seq<EdgeRecord>, nodes: seq<NodeRecord>, adjacency: seq<seq<int>>, p: int -> int,
                     edges': seq<EdgeRecord>, nodes': seq<NodeRecord>, adjacency': seq<seq<int>>, store: NodeRecord -> NodeRecord)
    requires StoreOk(edges, nodes, adjacency) && IsPermutation(p, |nodes|) && edges' == AllRelabelled(edges, p)
    requires Permuted(nodes, nodes', p, store) && (forall r :: store(r) == r)
    requires |adjacency'| == |nodes| && forall u :: 0 <= u < |nodes| ==> adjacency'[p(u)] == adjacency[u]
    ensures EdgesRelabelled(edges, edges', p, |nodes|) && NodesMoved(nodes, adjacency, nodes', adjacency', p)
    ensures StoreOk(edges', nodes', adjacency')
  {
    forall v | 0 <= v < |nodes| ensures ChainOk(edges', nodes'[v].edgeRef, v, adjacency'[v]) {
      var u := Onto(p, |nodes|, v);
      assert ChainOk(edges, nodes[u].edgeRef, u, adjacency[u]);
      ChainOkRelabelled(edges, edges', p, |nodes|, nodes[u].edgeRef, u, adjacency[u]);
    }
    forall e | 0 <= e < |edges'| ensures 0 <= edges'[e].nodeA < |nodes| && 0 <= edges'[e].nodeB < |nodes| && edges'[e].nodeA != edges'[e].nodeB {
      assert edges'[e] == Relabelled(edges[e], p) && edges[e].nodeA != edges[e].nodeB;
    }
  }
}
