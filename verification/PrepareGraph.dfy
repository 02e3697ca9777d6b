/** The preparation graph: the arcs between the nodes not contracted yet, base edges and
    shortcuts alike, in one list of leaving and one of arriving edges per node. */
module PrepareGraphs {
  import opened Walks

  /** An edge of the preparation. A shortcut leads from nodeA to nodeB only. */
  datatype PrepareEdge = PrepareEdge(nodeA: int, nodeB: int, weightAB: Weight, weightBA: Weight,
                                     skipped1: int, skipped2: int, origEdgeCount: int)
  {
    function Adj(node: int): int {
      if nodeA == node then nodeB else nodeA
    }

    /** The weight of leaving a node over the edge, or of arriving there when reverse. */
    function WeightAt(node: int, reverse: bool): Weight {
      if (nodeA == node) == reverse then weightBA else weightAB
    }

    predicate Links(u: int, w: int) {
      u != w && ((nodeA == u && nodeB == w) || (nodeA == w && nodeB == u))
    }
  }

  type EdgeTable = map<int, PrepareEdge>
  type EdgeLists = seq<seq<int>>

  ghost predicate Listed(lists: EdgeLists, node: int, id: int) {
    0 <= node < |lists| && id in lists[node]
  }

  function LeavingArc(edges: EdgeTable, node: int, id: int): Arc
    requires id in edges && edges[id].WeightAt(node, false).Fin?
  {
    Arc(id, node, edges[id].Adj(node), edges[id].WeightAt(node, false).value)
  }

  function ArrivingArc(edges: EdgeTable, node: int, id: int): Arc
    requires id in edges && edges[id].WeightAt(node, true).Fin?
  {
    Arc(id, edges[id].Adj(node), node, edges[id].WeightAt(node, true).value)
  }

  /** The edge touches the node, is no loop, and is open in the given direction. */
  ghost predicate OpenAt(edges: EdgeTable, nodes: nat, node: int, id: int, reverse: bool) {
    && id in edges && (edges[id].nodeA == node || edges[id].nodeB == node) && edges[id].nodeA != edges[id].nodeB
    && 0 <= edges[id].nodeA < nodes && 0 <= edges[id].nodeB < nodes
    && edges[id].WeightAt(node, reverse).Fin? && edges[id].WeightAt(node, reverse).value >= 0.0
  }

  /** Both lists of arcs describe the same graph. */
  ghost predicate ListsOk(edges: EdgeTable, out: EdgeLists, into: EdgeLists) {
    && |out| == |into|
    && (forall u, id {:trigger Listed(out, u, id)} :: Listed(out, u, id) ==>
          OpenAt(edges, |out|, u, id, false) && id in into[edges[id].Adj(u)])
    && (forall u, id {:trigger Listed(into, u, id)} :: Listed(into, u, id) ==>
          OpenAt(edges, |out|, u, id, true) && id in out[edges[id].Adj(u)])
  }

  ghost predicate IsArc(edges: EdgeTable, out: EdgeLists, a: Arc) {
    && Listed(out, a.from, a.edge) && a.edge in edges
    && edges[a.edge].WeightAt(a.from, false) == Fin(a.weight) && edges[a.edge].Adj(a.from) == a.to
  }

  ghost function Arcs(edges: EdgeTable, out: EdgeLists): Graph {
    iset a | IsArc(edges, out, a)
  }

  lemma ArrivingIsArc(edges: EdgeTable, out: EdgeLists, into: EdgeLists, node: int, id: int)
    requires ListsOk(edges, out, into) && Listed(into, node, id)
    ensures OpenAt(edges, |out|, node, id, true) && ArrivingArc(edges, node, id) in Arcs(edges, out)
  {
    assert Listed(out, edges[id].Adj(node), id);
  }

  lemma ArcArrives(edges: EdgeTable, out: EdgeLists, into: EdgeLists, a: Arc)
    requires ListsOk(edges, out, into) && a in Arcs(edges, out)
    ensures Listed(into, a.to, a.edge) && OpenAt(edges, |out|, a.to, a.edge, true) && ArrivingArc(edges, a.to, a.edge) == a
    ensures 0 <= a.from < |out| && 0 <= a.to < |out| && a.from != a.to && a.weight >= 0.0
  {
    assert Listed(out, a.from, a.edge);
  }

  function Without(list: seq<int>, id: int): (r: seq<int>)
    ensures forall x :: x in r <==> x in list && x != id
  {
    if list == [] then []
    else if list[0] == id then Without(list[1..], id)
    else [list[0]] + Without(list[1..], id)
  }

  ghost predicate Avoids(a: Arc, node: int) {
    a.from != node && a.to != node
  }

  ghost function Around(g: Graph, node: int): Graph {
    iset a | a in g && Avoids(a, node)
  }

  // ----- single changes, on values

  /** An edge that is in no list yet does not matter. */
  lemma NewEdgeOk(edges: EdgeTable, out: EdgeLists, into: EdgeLists, id: int, e: PrepareEdge)
    requires ListsOk(edges, out, into) && id !in edges
    ensures ListsOk(edges[id := e], out, into) && Arcs(edges[id := e], out) == Arcs(edges, out)
  {
    forall a ensures IsArc(edges[id := e], out, a) <==> IsArc(edges, out, a) {
      assert Listed(out, a.from, a.edge) ==> OpenAt(edges, |out|, a.from, a.edge, false);
    }
  }

  function Prepend(lists: EdgeLists, node: int, id: int): EdgeLists
    requires 0 <= node < |lists|
  {
    lists[node := [id] + lists[node]]
  }

  lemma PrependListed(lists: EdgeLists, node: int, id: int)
    requires 0 <= node < |lists|
    ensures forall u, x {:trigger Listed(Prepend(lists, node, id), u, x)} ::
              Listed(Prepend(lists, node, id), u, x) <==> Listed(lists, u, x) || (u == node && x == id)
  {
  }

  /** Listing an open edge at both its ends adds exactly its arc. */
  lemma ListEdgeOk(edges: EdgeTable, out: EdgeLists, into: EdgeLists, node: int, id: int)
    requires ListsOk(edges, out, into) && OpenAt(edges, |out|, node, id, false)
    ensures ListsOk(edges, Prepend(out, node, id), Prepend(into, edges[id].Adj(node), id))
    ensures Arcs(edges, Prepend(out, node, id)) == Arcs(edges, out) + iset{LeavingArc(edges, node, id)}
  {
    var v := edges[id].Adj(node);
    PrependListed(out, node, id);
    PrependListed(into, v, id);
    var out', into' := Prepend(out, node, id), Prepend(into, v, id);
    forall u, x | Listed(out', u, x) ensures OpenAt(edges, |out'|, u, x, false) && x in into'[edges[x].Adj(u)] {
      assert Listed(out, u, x) || (u == node && x == id);
    }
    forall u, x | Listed(into', u, x) ensures OpenAt(edges, |out'|, u, x, true) && x in out'[edges[x].Adj(u)] {
      assert Listed(into, u, x) || (u == v && x == id);
    }
    forall a ensures IsArc(edges, out', a) <==> IsArc(edges, out, a) || a == LeavingArc(edges, node, id) {
      assert Listed(out', a.from, a.edge) <==> Listed(out, a.from, a.edge) || (a.from == node && a.edge == id);
    }
  }

  /** Giving a listed one-way edge another weight replaces exactly its arc. */
  lemma ReweighOk(edges: EdgeTable, out: EdgeLists, into: EdgeLists, id: int, e: PrepareEdge)
    requires ListsOk(edges, out, into) && id in edges && Listed(out, edges[id].nodeA, id)
    requires edges[id].weightBA.Inf? && e.weightBA.Inf? && e.weightAB.Fin? && e.weightAB.value >= 0.0
    requires e.nodeA == edges[id].nodeA && e.nodeB == edges[id].nodeB
    ensures ListsOk(edges[id := e], out, into)
    ensures Arcs(edges[id := e], out) == Arcs(edges, out) - iset{LeavingArc(edges, e.nodeA, id)} + iset{LeavingArc(edges[id := e], e.nodeA, id)}
  {
    var edges' := edges[id := e];
    forall u, x | Listed(out, u, x) ensures OpenAt(edges', |out|, u, x, false) && edges'[x].Adj(u) == edges[x].Adj(u) {
      assert OpenAt(edges, |out|, u, x, false);
    }
    forall u, x | Listed(into, u, x) ensures OpenAt(edges', |out|, u, x, true) && edges'[x].Adj(u) == edges[x].Adj(u) {
      assert OpenAt(edges, |out|, u, x, true);
    }
    forall a ensures IsArc(edges', out, a) <==>
                     (IsArc(edges, out, a) && a != LeavingArc(edges, e.nodeA, id)) || a == LeavingArc(edges', e.nodeA, id) {
      if Listed(out, a.from, a.edge) {
        assert OpenAt(edges, |out|, a.from, a.edge, false);
      }
    }
  }

  /** The lists after a node and everything listed there is gone. */
  ghost predicate Disconnected(out: EdgeLists, out': EdgeLists, into: EdgeLists, node: int) {
    && |out'| == |out|
    && forall u, x {:trigger Listed(out', u, x)} :: Listed(out', u, x) <==> Listed(out, u, x) && u != node && !Listed(into, node, x)
  }

  lemma DisconnectOk(edges: EdgeTable, out: EdgeLists, into: EdgeLists, out': EdgeLists, into': EdgeLists, node: int)
    requires ListsOk(edges, out, into) && 0 <= node < |out|
    requires Disconnected(out, out', into, node) && Disconnected(into, into', out, node)
    ensures ListsOk(edges, out', into') && Arcs(edges, out') == Around(Arcs(edges, out), node)
  {
    forall u, x | Listed(out', u, x) ensures OpenAt(edges, |out'|, u, x, false) && x in into'[edges[x].Adj(u)] {
      assert Listed(out, u, x);
      var v := edges[x].Adj(u);
      assert Listed(into, v, x) && v != node;
      assert Listed(into', v, x);
    }
    forall u, x | Listed(into', u, x) ensures OpenAt(edges, |out'|, u, x, true) && x in out'[edges[x].Adj(u)] {
      assert Listed(into, u, x);
      var v := edges[x].Adj(u);
      assert Listed(out, v, x) && v != node;
      assert Listed(out', v, x);
    }
    forall a ensures IsArc(edges, out', a) <==> IsArc(edges, out, a) && Avoids(a, node) {
      if IsArc(edges, out, a) {
        assert Listed(out, a.from, a.edge);
        if a.to == node {
          assert Listed(into, node, a.edge);
        } else if Listed(into, node, a.edge) {
          assert OpenAt(edges, |out|, node, a.edge, true);
        }
      }
    }
  }

  function Removed(lists: EdgeLists, node: int, id: int): EdgeLists
    requires 0 <= node < |lists|
  {
    lists[node := Without(lists[node], id)]
  }

  /** The given edges of a node are gone from the lists of their other ends. */
  ghost predicate Detached(edges: EdgeTable, lists0: EdgeLists, lists: EdgeLists, node: int, ids: seq<int>) {
    && |lists| == |lists0| && 0 <= node < |lists| && lists[node] == lists0[node]
    && (forall id :: id in ids ==> id in edges)
    && forall u, x {:trigger Listed(lists, u, x)} {:trigger Listed(lists0, u, x)} ::
         Listed(lists, u, x) <==> Listed(lists0, u, x) && !(x in ids && u == edges[x].Adj(node))
  }

  lemma DetachStep(edges: EdgeTable, lists0: EdgeLists, lists: EdgeLists, node: int, ids: seq<int>, i: nat)
    requires i < |ids| && Detached(edges, lists0, lists, node, ids[..i])
    requires ids[i] in edges && 0 <= edges[ids[i]].Adj(node) < |lists| && edges[ids[i]].Adj(node) != node
    ensures Detached(edges, lists0, Removed(lists, edges[ids[i]].Adj(node), ids[i]), node, ids[..i + 1])
  {
    var adj := edges[ids[i]].Adj(node);
    var r := Removed(lists, adj, ids[i]);
    assert ids[..i + 1] == ids[..i] + [ids[i]];
    forall u, x ensures Listed(r, u, x) <==> Listed(lists, u, x) && !(u == adj && x == ids[i]) {}
  }

  lemma DetachedOk(edges: EdgeTable, out0: EdgeLists, into0: EdgeLists, out: EdgeLists, into: EdgeLists, node: int)
    requires ListsOk(edges, out0, into0) && 0 <= node < |out0|
    requires Detached(edges, into0, into, node, out0[node]) && Detached(edges, out0, out, node, into0[node])
    ensures Disconnected(out0, out[node := []], into0, node) && Disconnected(into0, into[node := []], out0, node)
  {
    forall u, x ensures Listed(out[node := []], u, x) <==> Listed(out0, u, x) && u != node && !Listed(into0, node, x) {
      assert Listed(out[node := []], u, x) <==> Listed(out, u, x) && u != node;
      if Listed(out0, u, x) && Listed(into0, node, x) && u != node {
        assert OpenAt(edges, |out0|, u, x, false) && OpenAt(edges, |out0|, node, x, true);
      }
    }
    forall u, x ensures Listed(into[node := []], u, x) <==> Listed(into0, u, x) && u != node && !Listed(out0, node, x) {
      assert Listed(into[node := []], u, x) <==> Listed(into, u, x) && u != node;
      if Listed(into0, u, x) && Listed(out0, node, x) && u != node {
        assert OpenAt(edges, |out0|, u, x, true) && OpenAt(edges, |out0|, node, x, false);
      }
    }
  }

  ghost predicate NeighborVia(edges: EdgeTable, node: int, ids: seq<int>, v: int) {
    exists id :: id in ids && id in edges && edges[id].Adj(node) == v
  }

  lemma NeighborStep(edges: EdgeTable, node: int, ids: seq<int>, i: nat)
    requires i < |ids| && ids[i] in edges
    ensures forall v :: NeighborVia(edges, node, ids[..i + 1], v) <==> NeighborVia(edges, node, ids[..i], v) || v == edges[ids[i]].Adj(node)
  {
    assert ids[..i + 1] == ids[..i] + [ids[i]];
    var last := ids[i];
    assert last in ids[..i + 1] && last in edges && edges[last].Adj(node) == edges[ids[i]].Adj(node);
    assert NeighborVia(edges, node, ids[..i + 1], edges[ids[i]].Adj(node));
    forall v | NeighborVia(edges, node, ids[..i], v) ensures NeighborVia(edges, node, ids[..i + 1], v) {
      var id :| id in ids[..i] && id in edges && edges[id].Adj(node) == v;
      assert id in ids[..i + 1];
    }
    forall v | NeighborVia(edges, node, ids[..i + 1], v) ensures NeighborVia(edges, node, ids[..i], v) || v == edges[ids[i]].Adj(node) {
      var id :| id in ids[..i + 1] && id in edges && edges[id].Adj(node) == v;
      assert id in ids[..i] || id == ids[i];
    }
  }

  ghost predicate Adjacent(g: Graph, node: int, v: int) {
    exists a :: a in g && ((a.from == node && a.to == v) || (a.from == v && a.to == node))
  }

  lemma NeighborsOk(edges: EdgeTable, out: EdgeLists, into: EdgeLists, node: int)
    requires ListsOk(edges, out, into) && 0 <= node < |out|
    ensures forall v :: Adjacent(Arcs(edges, out), node, v) <==> NeighborVia(edges, node, out[node], v) || NeighborVia(edges, node, into[node], v)
  {
    var g := Arcs(edges, out);
    forall v | NeighborVia(edges, node, out[node], v) ensures Adjacent(g, node, v) {
      var id :| id in out[node] && id in edges && edges[id].Adj(node) == v;
      assert Listed(out, node, id);
      assert LeavingArc(edges, node, id) in g;
    }
    forall v | NeighborVia(edges, node, into[node], v) ensures Adjacent(g, node, v) {
      var id :| id in into[node] && id in edges && edges[id].Adj(node) == v;
      assert Listed(into, node, id);
      ArrivingIsArc(edges, out, into, node, id);
    }
    forall v | Adjacent(g, node, v) ensures NeighborVia(edges, node, out[node], v) || NeighborVia(edges, node, into[node], v) {
      var a :| a in g && ((a.from == node && a.to == v) || (a.from == v && a.to == node));
      ArcArrives(edges, out, into, a);
      assert Listed(out, a.from, a.edge);
    }
  }

  class CHPreparationGraph {
    const nodes: nat
    const baseEdges: nat  // ids below this are base edges, the others shortcuts
    var edges: EdgeTable
    var out: EdgeLists
    var into: EdgeLists
    var nextShortcutId: int
    var shortcutFor: map<int, int>  // the stored shortcut that a shortcut of the preparation became

    ghost predicate Valid()
      reads this
    {
      && |out| == nodes && ListsOk(edges, out, into)
      && nextShortcutId >= baseEdges
      && forall id :: id in edges ==> 0 <= id < nextShortcutId
    }

    ghost function Graph(): Walks.Graph
      reads this
    {
      Arcs(edges, out)
    }

    constructor (nodes: nat, baseEdges: nat)
      ensures Valid() && this.nodes == nodes && this.baseEdges == baseEdges
      ensures edges == map[] && Graph() == iset{} && shortcutFor == map[]
    {
      this.nodes, this.baseEdges := nodes, baseEdges;
      edges, nextShortcutId, shortcutFor := map[], baseEdges, map[];
      out, into := seq(nodes, _ => []), seq(nodes, _ => []);
    }

    function IsShortcut(id: int): bool {
      id >= baseEdges
    }

    method AddOutEdge(node: int, id: int)
      requires 0 <= node < |out|
      modifies this`out
      ensures out == Prepend(old(out), node, id)
    {
      out := out[node := [id] + out[node]];
    }

    method AddInEdge(node: int, id: int)
      requires 0 <= node < |into|
      modifies this`into
      ensures into == Prepend(old(into), node, id)
    {
      into := into[node := [id] + into[node]];
    }

    /** Adds a base edge: an arc in each direction that is open. */
    method AddEdge(from: int, to: int, edge: int, weightFwd: Weight, weightBwd: Weight)
      requires Valid() && 0 <= from < nodes && 0 <= to < nodes && from != to
      requires 0 <= edge < baseEdges && edge !in edges
      requires (weightFwd.Fin? ==> weightFwd.value >= 0.0) && (weightBwd.Fin? ==> weightBwd.value >= 0.0)
      modifies this`edges, this`out, this`into
      ensures Valid() && nextShortcutId == old(nextShortcutId)
      ensures edges == old(edges) || edges == old(edges)[edge := PrepareEdge(from, to, weightFwd, weightBwd, NO_EDGE, NO_EDGE, 1)]
      ensures Graph() == old(Graph()) + (if weightFwd.Fin? then iset{Arc(edge, from, to, weightFwd.value)} else iset{})
                                      + (if weightBwd.Fin? then iset{Arc(edge, to, from, weightBwd.value)} else iset{})
    {
      if weightFwd.Inf? && weightBwd.Inf? {
        return;
      }
      var e := PrepareEdge(from, to, weightFwd, weightBwd, NO_EDGE, NO_EDGE, 1);
      NewEdgeOk(edges, out, into, edge, e);
      edges := edges[edge := e];
      if weightFwd.Fin? {
        ListEdgeOk(edges, out, into, from, edge);
        AddOutEdge(from, edge);
        AddInEdge(to, edge);
      }
      if weightBwd.Fin? {
        ListEdgeOk(edges, out, into, to, edge);
        AddOutEdge(to, edge);
        AddInEdge(from, edge);
      }
    }

    method AddShortcut(from: int, to: int, skipped1: int, skipped2: int, weight: real, origEdgeCount: int) returns (id: int)
      requires Valid() && 0 <= from < nodes && 0 <= to < nodes && from != to && weight >= 0.0
      modifies this`edges, this`out, this`into, this`nextShortcutId
      ensures Valid() && id == old(nextShortcutId) && nextShortcutId == id + 1
      ensures edges == old(edges)[id := PrepareEdge(from, to, Fin(weight), Inf, skipped1, skipped2, origEdgeCount)]
      ensures out == Prepend(old(out), from, id) && into == Prepend(old(into), to, id)
      ensures Graph() == old(Graph()) + iset{Arc(id, from, to, weight)}
    {
      id := nextShortcutId;
      var e := PrepareEdge(from, to, Fin(weight), Inf, skipped1, skipped2, origEdgeCount);
      NewEdgeOk(edges, out, into, id, e);
      ListEdgeOk(edges[id := e], out, into, from, id);
      edges := edges[id := e];
      AddOutEdge(from, id);
      AddInEdge(to, id);
      nextShortcutId := nextShortcutId + 1;
    }

    /** Lets a shortcut stand for another, cheaper pair of edges. */
    method Replace(id: int, weight: real, skipped1: int, skipped2: int, origEdgeCount: int)
      requires Valid() && id in edges && Listed(out, edges[id].nodeA, id) && edges[id].weightBA.Inf? && weight >= 0.0
      modifies this`edges
      ensures Valid()
      ensures edges == old(edges)[id := PrepareEdge(old(edges)[id].nodeA, old(edges)[id].nodeB, Fin(weight), Inf, skipped1, skipped2, origEdgeCount)]
      ensures Graph() == old(Graph()) - iset{LeavingArc(old(edges), edges[id].nodeA, id)} + iset{Arc(id, edges[id].nodeA, edges[id].nodeB, weight)}
    {
      var e := PrepareEdge(edges[id].nodeA, edges[id].nodeB, Fin(weight), Inf, skipped1, skipped2, origEdgeCount);
      ReweighOk(edges, out, into, id, e);
      edges := edges[id := e];
    }

    method SetShortcutForPrepareEdge(id: int, shortcut: int)
      modifies this`shortcutFor
      ensures shortcutFor == old(shortcutFor)[id := shortcut]
    {
      shortcutFor := shortcutFor[id := shortcut];
    }

    method RemoveOutEdge(node: int, id: int)
      requires 0 <= node < |out|
      modifies this`out
      ensures out == Removed(old(out), node, id)
    {
      out := out[node := Without(out[node], id)];
    }

    method RemoveInEdge(node: int, id: int)
      requires 0 <= node < |into|
      modifies this`into
      ensures into == Removed(old(into), node, id)
    {
      into := into[node := Without(into[node], id)];
    }

    /** Removes a node with all its edges and returns its neighbours. */
    method Disconnect(node: int) returns (neighbors: set<int>)
      requires Valid() && 0 <= node < nodes
      modifies this`out, this`into
      ensures Valid() && Graph() == Around(old(Graph()), node)
      ensures Disconnected(old(out), out, old(into), node) && Disconnected(old(into), into, old(out), node)
      ensures forall v :: v in neighbors <==> Adjacent(old(Graph()), node, v)
    {
      ghost var out0, into0 := out, into;
      neighbors := {};
      var i := 0;
      while i < |out[node]|
        invariant out == out0 && 0 <= i <= |out[node]|
        invariant Detached(edges, into0, into, node, out0[node][..i])
        invariant forall v :: v in neighbors <==> NeighborVia(edges, node, out0[node][..i], v)
      {
        var id := out[node][i];
        assert Listed(out, node, id);
        var adj := edges[id].Adj(node);
        DetachStep(edges, into0, into, node, out0[node], i);
        NeighborStep(edges, node, out0[node], i);
        RemoveInEdge(adj, id);
        neighbors := neighbors + {adj};
        i := i + 1;
      }
      assert out0[node][..i] == out0[node];
      ghost var outNeighbors := neighbors;
      i := 0;
      while i < |into[node]|
        invariant |into| == nodes && into[node] == into0[node] && 0 <= i <= |into0[node]|
        invariant Detached(edges, into0, into, node, out0[node]) && Detached(edges, out0, out, node, into0[node][..i])
        invariant forall v :: v in neighbors <==> v in outNeighbors || NeighborVia(edges, node, into0[node][..i], v)
      {
        var id := into[node][i];
        assert Listed(into0, node, id);
        var adj := edges[id].Adj(node);
        DetachStep(edges, out0, out, node, into0[node], i);
        NeighborStep(edges, node, into0[node], i);
        RemoveOutEdge(adj, id);
        neighbors := neighbors + {adj};
        i := i + 1;
      }
      assert into0[node][..i] == into0[node];
      DetachedOk(edges, out0, into0, out, into, node);
      NeighborsOk(edges, out0, into0, node);
      out := out[node := []];
      into := into[node := []];
      DisconnectOk(edges, out0, into0, out, into, node);
    }
  }
}
