/** The contraction hierarchy as it is stored: levels and shortcuts beside the base graph,
    written node by node in contraction order, and the iteration over the edges of a node. */
module CHStorages {
  import opened Walks
  import opened RoutingGraphs

  /** An edge between two nodes with a weight per direction. */
  datatype RoadEdge = RoadEdge(nodeA: int, nodeB: int, weightAB: Weight, weightBA: Weight) {
    predicate Links(u: int, w: int) {
      u != w && ((nodeA == u && nodeB == w) || (nodeA == w && nodeB == u))
    }

    function Other(node: int): int {
      if nodeA == node then nodeB else nodeA
    }

    /** The weight of leaving the node over the edge. */
    function WeightFrom(node: int): Weight {
      if nodeA == node then weightAB else weightBA
    }

    function End(edge: int, node: int): HalfEdge {
      HalfEdge(edge, Other(node), WeightFrom(node), WeightFrom(Other(node)))
    }
  }

  /** Edges by id, and for each node the ids of the edges that touch it. */
  datatype BaseGraph = BaseGraph(edges: seq<RoadEdge>, adjacency: seq<seq<int>>) {
    ghost predicate Valid() {
      && (forall id {:trigger edges[id]} :: 0 <= id < |edges| ==>
            && edges[id].Links(edges[id].nodeA, edges[id].nodeB)
            && 0 <= edges[id].nodeA < |adjacency| && 0 <= edges[id].nodeB < |adjacency|
            && (edges[id].weightAB.Fin? ==> edges[id].weightAB.value >= 0.0)
            && (edges[id].weightBA.Fin? ==> edges[id].weightBA.value >= 0.0))
      && forall u, id {:trigger id in adjacency[u]} :: 0 <= u < |adjacency| ==>
           (id in adjacency[u] <==> 0 <= id < |edges| && (edges[id].nodeA == u || edges[id].nodeB == u))
    }
  }

  /** A stored shortcut. It belongs to its lower end nodeA and can be open both ways. */
  datatype Shortcut = Shortcut(nodeA: int, nodeB: int, fwd: bool, bwd: bool, weight: real, skipped1: int, skipped2: int) {
    function Edge(): RoadEdge {
      RoadEdge(nodeA, nodeB, if fwd then Fin(weight) else Inf, if bwd then Fin(weight) else Inf)
    }
  }

  ghost predicate IsEdgeId(edges: seq<RoadEdge>, shortcuts: seq<Shortcut>, id: int) {
    0 <= id < |edges| + |shortcuts|
  }

  /** Base edges first, then the shortcuts. */
  function EdgeOf(edges: seq<RoadEdge>, shortcuts: seq<Shortcut>, id: int): RoadEdge
    requires IsEdgeId(edges, shortcuts, id)
  {
    if id < |edges| then edges[id] else shortcuts[id - |edges|].Edge()
  }

  ghost predicate IsChArc(edges: seq<RoadEdge>, shortcuts: seq<Shortcut>, a: Arc) {
    && IsEdgeId(edges, shortcuts, a.edge)
    && EdgeOf(edges, shortcuts, a.edge).Links(a.from, a.to)
    && EdgeOf(edges, shortcuts, a.edge).WeightFrom(a.from) == Fin(a.weight)
  }

  /** The arcs of the hierarchy; without shortcuts, those of the base graph. */
  ghost function ChArcs(edges: seq<RoadEdge>, shortcuts: seq<Shortcut>): Graph {
    iset a | IsChArc(edges, shortcuts, a)
  }

  ghost predicate Above(levels: seq<int>, u: int, w: int) {
    0 <= u < |levels| && 0 <= w < |levels| && levels[u] < levels[w]
  }

  ghost function UpArcs(edges: seq<RoadEdge>, shortcuts: seq<Shortcut>, levels: seq<int>): Graph {
    iset a | IsChArc(edges, shortcuts, a) && Above(levels, a.from, a.to)
  }

  ghost function DownArcs(edges: seq<RoadEdge>, shortcuts: seq<Shortcut>, levels: seq<int>): Graph {
    iset a | IsChArc(edges, shortcuts, a) && Above(levels, a.to, a.from)
  }

  // ----- the shortcuts of a node are one run

  ghost predicate Contracted(levels: seq<int>, u: int) {
    0 <= u < |levels| && 0 <= levels[u] < |levels|
  }

  /** Nodes not contracted yet share the level after the last one, all others differ. */
  ghost predicate LevelsOk(levels: seq<int>) {
    && (forall u {:trigger levels[u]} :: 0 <= u < |levels| ==> 0 <= levels[u] <= |levels|)
    && forall u, w {:trigger Contracted(levels, u), Contracted(levels, w)} ::
         Contracted(levels, u) && Contracted(levels, w) && levels[u] == levels[w] ==> u == w
  }

  ghost predicate ShortcutLeads(levels: seq<int>, sc: Shortcut) {
    Contracted(levels, sc.nodeA) && Above(levels, sc.nodeA, sc.nodeB)
  }

  ghost predicate InLevelOrder(levels: seq<int>, shortcuts: seq<Shortcut>, i: nat, j: nat)
    requires i < |shortcuts| && j < |shortcuts|
  {
    && ShortcutLeads(levels, shortcuts[i]) && ShortcutLeads(levels, shortcuts[j])
    && levels[shortcuts[i].nodeA] <= levels[shortcuts[j].nodeA]
  }

  ghost predicate RunsOk(levels: seq<int>, last: seq<int>, shortcuts: seq<Shortcut>) {
    && |last| == |levels|
    && (forall i {:trigger shortcuts[i]} :: 0 <= i < |shortcuts| ==> ShortcutLeads(levels, shortcuts[i]))
    && (forall i, j {:trigger InLevelOrder(levels, shortcuts, i, j)} :: 0 <= i < j < |shortcuts| ==> InLevelOrder(levels, shortcuts, i, j))
    && (forall u {:trigger last[u]} :: 0 <= u < |last| ==> -1 <= last[u] < |shortcuts| && (last[u] >= 0 ==> shortcuts[last[u]].nodeA == u))
    && (forall i {:trigger shortcuts[i]} :: 0 <= i < |shortcuts| ==> i <= last[shortcuts[i].nodeA])
  }

  lemma NewLevelOk(levels: seq<int>, last: seq<int>, shortcuts: seq<Shortcut>, node: int, level: int)
    requires LevelsOk(levels) && RunsOk(levels, last, shortcuts)
    requires 0 <= node < |levels| && levels[node] == |levels| && 0 <= level < |levels|
    requires forall u :: Contracted(levels, u) ==> levels[u] < level
    ensures LevelsOk(levels[node := level]) && RunsOk(levels[node := level], last, shortcuts)
    ensures forall u :: Contracted(levels[node := level], u) <==> Contracted(levels, u) || u == node
    ensures forall u, w :: Above(levels, u, w) ==> Above(levels[node := level], u, w)
  {
    var l := levels[node := level];
    forall i | 0 <= i < |shortcuts| ensures shortcuts[i].nodeA != node && ShortcutLeads(l, shortcuts[i]) {
      assert ShortcutLeads(levels, shortcuts[i]);
    }
    forall i: nat, j: nat | i < j < |shortcuts| ensures InLevelOrder(l, shortcuts, i, j) {
      assert InLevelOrder(levels, shortcuts, i, j);
    }
    forall u, w | Above(levels, u, w) ensures Above(l, u, w) {
      if w == node {
        assert Contracted(levels, u);
      }
    }
    forall u, w | Contracted(l, u) && Contracted(l, w) && l[u] == l[w] ensures u == w {
      assert u == node || Contracted(levels, u);
      assert w == node || Contracted(levels, w);
    }
  }

  lemma NewShortcutOk(levels: seq<int>, last: seq<int>, shortcuts: seq<Shortcut>, sc: Shortcut)
    requires LevelsOk(levels) && RunsOk(levels, last, shortcuts) && ShortcutLeads(levels, sc)
    requires forall i :: 0 <= i < |shortcuts| ==> levels[shortcuts[i].nodeA] <= levels[sc.nodeA]
    ensures RunsOk(levels, last[sc.nodeA := |shortcuts|], shortcuts + [sc])
  {
    forall i: nat, j: nat | i < j <= |shortcuts| ensures InLevelOrder(levels, shortcuts + [sc], i, j) {
      assert j < |shortcuts| ==> InLevelOrder(levels, shortcuts, i, j);
      assert ShortcutLeads(levels, shortcuts[i]);
    }
  }

  /** No shortcut belongs to a higher level than the last one. */
  lemma BelowLast(levels: seq<int>, last: seq<int>, shortcuts: seq<Shortcut>)
    requires RunsOk(levels, last, shortcuts)
    ensures forall i :: 0 <= i < |shortcuts| ==> levels[shortcuts[i].nodeA] <= levels[shortcuts[|shortcuts| - 1].nodeA]
  {
    var n := |shortcuts| - 1;
    forall i: nat | i < |shortcuts| ensures levels[shortcuts[i].nodeA] <= levels[shortcuts[n].nodeA] {
      assert i < n ==> InLevelOrder(levels, shortcuts, i, n);
    }
  }

  /** The shortcuts of a node are consecutive. */
  lemma RunContiguous(levels: seq<int>, last: seq<int>, shortcuts: seq<Shortcut>, i: nat, k: nat)
    requires LevelsOk(levels) && RunsOk(levels, last, shortcuts) && i <= k < |shortcuts| && k <= last[shortcuts[i].nodeA]
    ensures shortcuts[k].nodeA == shortcuts[i].nodeA
  {
    var u := shortcuts[i].nodeA;
    assert shortcuts[last[u]].nodeA == u;
    assert k < last[u] ==> InLevelOrder(levels, shortcuts, k, last[u]);
    assert i < k ==> InLevelOrder(levels, shortcuts, i, k);
    assert ShortcutLeads(levels, shortcuts[i]) && ShortcutLeads(levels, shortcuts[k]);
    assert Contracted(levels, u) && Contracted(levels, shortcuts[k].nodeA);
    assert levels[u] <= levels[shortcuts[k].nodeA] <= levels[u];
  }

  /** Skipped edges play no part in the runs. */
  lemma SkippedEdgesOk(levels: seq<int>, last: seq<int>, shortcuts: seq<Shortcut>, i: nat, skipped1: int, skipped2: int)
    requires RunsOk(levels, last, shortcuts) && i < |shortcuts|
    ensures RunsOk(levels, last, shortcuts[i := shortcuts[i].(skipped1 := skipped1, skipped2 := skipped2)])
  {
    var r := shortcuts[i := shortcuts[i].(skipped1 := skipped1, skipped2 := skipped2)];
    forall x: nat, y: nat | x < y < |r| ensures InLevelOrder(levels, r, x, y) {
      assert InLevelOrder(levels, shortcuts, x, y);
    }
    assert ShortcutLeads(levels, shortcuts[i]);
  }

  class CHStorage {
    var levels: seq<int>
    var lastShortcut: seq<int>
    var shortcuts: seq<Shortcut>

    ghost predicate Valid()
      reads this
    {
      LevelsOk(levels) && RunsOk(levels, lastShortcut, shortcuts)
    }

    constructor (nodes: nat)
      ensures Valid() && |levels| == nodes && shortcuts == []
      ensures forall u :: 0 <= u < nodes ==> levels[u] == nodes
    {
      levels := seq(nodes, _ => nodes);
      lastShortcut := seq(nodes, _ => -1);
      shortcuts := [];
    }

    /** Gives the node contracted next its level. */
    method SetLevel(node: int, level: int)
      requires Valid() && 0 <= node < |levels| && levels[node] == |levels| && 0 <= level < |levels|
      requires forall u :: Contracted(levels, u) ==> levels[u] < level
      modifies this`levels
      ensures Valid() && levels == old(levels)[node := level]
    {
      NewLevelOk(levels, lastShortcut, shortcuts, node, level);
      levels := levels[node := level];
    }

    /** Shortcuts arrive in the order of the levels of their lower ends. */
    method AddShortcutNodeBased(nodeA: int, nodeB: int, fwd: bool, bwd: bool, weight: real, skipped1: int, skipped2: int) returns (shortcut: int)
      requires Valid() && 0 <= nodeA < |levels| && 0 <= nodeB < |levels|
      requires 0 <= levels[nodeA] < |levels| && levels[nodeA] < levels[nodeB]
      requires shortcuts != [] ==> levels[nodeA] >= levels[shortcuts[|shortcuts| - 1].nodeA]
      modifies this`shortcuts, this`lastShortcut
      ensures Valid() && shortcut == |old(shortcuts)|
      ensures shortcuts == old(shortcuts) + [Shortcut(nodeA, nodeB, fwd, bwd, weight, skipped1, skipped2)]
    {
      var sc := Shortcut(nodeA, nodeB, fwd, bwd, weight, skipped1, skipped2);
      BelowLast(levels, lastShortcut, shortcuts);
      NewShortcutOk(levels, lastShortcut, shortcuts, sc);
      shortcut := |shortcuts|;
      shortcuts := shortcuts + [sc];
      lastShortcut := lastShortcut[nodeA := shortcut];
    }

    /** Replaces the edges of the preparation by those they became here. */
    method ReplaceSkippedEdges(edges: nat, mapping: map<int, int>)
      requires Valid()
      requires forall i :: 0 <= i < |shortcuts| ==> Mapped(edges, mapping, shortcuts[i].skipped1) && Mapped(edges, mapping, shortcuts[i].skipped2)
      modifies this`shortcuts
      ensures Valid() && |shortcuts| == |old(shortcuts)|
      ensures forall i :: 0 <= i < |shortcuts| ==> shortcuts[i] == WithMapped(edges, mapping, old(shortcuts[i]))
    {
      var i := 0;
      while i < |shortcuts|
        invariant 0 <= i <= |shortcuts| == |old(shortcuts)|
        invariant Valid()
        invariant forall k :: 0 <= k < i ==> shortcuts[k] == WithMapped(edges, mapping, old(shortcuts)[k])
        invariant forall k :: i <= k < |shortcuts| ==> shortcuts[k] == old(shortcuts)[k]
      {
        var sc := WithMapped(edges, mapping, shortcuts[i]);
        SkippedEdgesOk(levels, lastShortcut, shortcuts, i, sc.skipped1, sc.skipped2);
        shortcuts := shortcuts[i := sc];
        i := i + 1;
      }
    }
  }

  /** The edge id is that of a base edge or has become a stored shortcut. */
  predicate Mapped(edges: nat, mapping: map<int, int>, id: int) {
    id < edges || id in mapping
  }

  function MappedId(edges: nat, mapping: map<int, int>, id: int): int
    requires Mapped(edges, mapping, id)
  {
    if id < edges then id else mapping[id]
  }

  function WithMapped(edges: nat, mapping: map<int, int>, sc: Shortcut): Shortcut
    requires Mapped(edges, mapping, sc.skipped1) && Mapped(edges, mapping, sc.skipped2)
  {
    sc.(skipped1 := MappedId(edges, mapping, sc.skipped1), skipped2 := MappedId(edges, mapping, sc.skipped2))
  }

  // ----- the finished hierarchy

  datatype CHGraph = CHGraph(base: BaseGraph, levels: seq<int>, lastShortcut: seq<int>, shortcuts: seq<Shortcut>) {
    ghost predicate Valid() {
      && base.Valid() && |base.adjacency| == |levels|
      && LevelsOk(levels) && RunsOk(levels, lastShortcut, shortcuts)
    }

    function EdgeCount(): nat {
      |base.edges| + |shortcuts|
    }

    function Edge(id: int): RoadEdge
      requires 0 <= id < EdgeCount()
    {
      EdgeOf(base.edges, shortcuts, id)
    }

    /** The shortcuts at i and before it that belong to the node, open in the given direction. */
    ghost function ShortcutRun(node: int, i: int, reverse: bool): seq<HalfEdge>
      requires i < |shortcuts|
      decreases if i < 0 then 0 else i + 1
    {
      if i < 0 || shortcuts[i].nodeA != node then [] else
      var h := shortcuts[i].Edge().End(|base.edges| + i, node);
      (if h.WeightOf(reverse).Fin? then [h] else []) + ShortcutRun(node, i - 1, reverse)
    }

    lemma RunStep(node: int, i: nat, reverse: bool, rest: seq<HalfEdge>)
      requires i < |shortcuts| && shortcuts[i].nodeA == node
      ensures var h := shortcuts[i].Edge().End(|base.edges| + i, node);
              ShortcutRun(node, i, reverse) + rest == (if h.WeightOf(reverse).Fin? then [h] else []) + (ShortcutRun(node, i - 1, reverse) + rest)
      ensures i == 0 || shortcuts[i - 1].nodeA != node ==> ShortcutRun(node, i - 1, reverse) == []
    {
    }

    /** The base edges of the node after the first k, open in the given direction. */
    ghost function BaseRun(node: int, k: nat, reverse: bool): seq<HalfEdge>
      requires base.Valid() && 0 <= node < |base.adjacency| && k <= |base.adjacency[node]|
      decreases |base.adjacency[node]| - k
    {
      if k == |base.adjacency[node]| then [] else
      var id := base.adjacency[node][k];
      assert id in base.adjacency[node];
      var h := base.edges[id].End(id, node);
      (if h.WeightOf(reverse).Fin? then [h] else []) + BaseRun(node, k + 1, reverse)
    }

    /** The edges a node offers: its own shortcuts, and all its base edges. */
    ghost predicate Offers(node: int, h: HalfEdge) {
      || (exists i :: 0 <= i < |shortcuts| && shortcuts[i].nodeA == node && h == shortcuts[i].Edge().End(|base.edges| + i, node))
      || (exists id :: 0 <= id < |base.edges| && (base.edges[id].nodeA == node || base.edges[id].nodeB == node) && h == base.edges[id].End(id, node))
    }

    ghost function Listing(node: int, reverse: bool): seq<HalfEdge>
      requires Valid() && 0 <= node < |levels|
    {
      ShortcutRun(node, lastShortcut[node], reverse) + BaseRun(node, 0, reverse)
    }

    lemma {:induction false} ShortcutRunExact(node: int, i: int, reverse: bool, h: HalfEdge)
      requires Valid() && 0 <= node < |levels| && i <= lastShortcut[node] && i < |shortcuts|
      ensures h in ShortcutRun(node, i, reverse) <==>
              h.WeightOf(reverse).Fin? && exists j :: 0 <= j <= i && shortcuts[j].nodeA == node && h == shortcuts[j].Edge().End(|base.edges| + j, node)
      decreases if i < 0 then 0 else i + 1
    {
      if i >= 0 {
        if shortcuts[i].nodeA == node {
          ShortcutRunExact(node, i - 1, reverse, h);
        } else {
          forall j | 0 <= j <= i && shortcuts[j].nodeA == node ensures false {
            RunContiguous(levels, lastShortcut, shortcuts, j, i);
          }
        }
      }
    }

    lemma {:induction false} BaseRunExact(node: int, k: nat, reverse: bool, h: HalfEdge)
      requires Valid() && 0 <= node < |levels| && k <= |base.adjacency[node]|
      ensures h in BaseRun(node, k, reverse) <==>
              h.WeightOf(reverse).Fin? && exists j :: k <= j < |base.adjacency[node]| && base.adjacency[node][j] in base.adjacency[node]
                                                      && h == base.edges[base.adjacency[node][j]].End(base.adjacency[node][j], node)
      decreases |base.adjacency[node]| - k
    {
      if k < |base.adjacency[node]| {
        assert base.adjacency[node][k] in base.adjacency[node];
        BaseRunExact(node, k + 1, reverse, h);
      }
    }

    /** Although only the last shortcut of a node is recorded, the iteration finds every edge
        the node offers in the direction of the search, and nothing else. */
    lemma ListingExact(node: int, reverse: bool, h: HalfEdge)
      requires Valid() && 0 <= node < |levels|
      ensures h in Listing(node, reverse) <==> Offers(node, h) && h.WeightOf(reverse).Fin?
    {
      ShortcutRunExact(node, lastShortcut[node], reverse, h);
      BaseRunExact(node, 0, reverse, h);
      if Offers(node, h) && h.WeightOf(reverse).Fin? {
        if i :| 0 <= i < |shortcuts| && shortcuts[i].nodeA == node && h == shortcuts[i].Edge().End(|base.edges| + i, node) {
          assert i <= lastShortcut[shortcuts[i].nodeA];
        } else {
          var id :| 0 <= id < |base.edges| && (base.edges[id].nodeA == node || base.edges[id].nodeB == node) && h == base.edges[id].End(id, node);
          assert id in base.adjacency[node];
          var j :| 0 <= j < |base.adjacency[node]| && base.adjacency[node][j] == id;
        }
      }
    }
  }

  /** The iterator over the edges of a node: first its run of shortcuts, last one first, then
      its base edges. */
  class RoutingCHEdgeIterator {
    const ch: CHGraph
    const incoming: bool
    var baseNode: int
    var nextEdge: int  // a shortcut, or NO_EDGE when the run is over
    var nextBase: nat
    var current: HalfEdge

    ghost predicate Valid()
      reads this
    {
      && ch.Valid() && 0 <= baseNode < |ch.levels| && nextBase <= |ch.base.adjacency[baseNode]|
      && nextEdge < ch.EdgeCount()
      && (nextEdge >= |ch.base.edges| ==> ch.shortcuts[nextEdge - |ch.base.edges|].nodeA == baseNode)
    }

    /** The edges still to come. */
    ghost function Rest(): seq<HalfEdge>
      reads this
      requires Valid()
    {
      (if nextEdge >= |ch.base.edges| then ch.ShortcutRun(baseNode, nextEdge - |ch.base.edges|, incoming) else [])
      + ch.BaseRun(baseNode, nextBase, incoming)
    }

    constructor (ch: CHGraph, incoming: bool, node: int)
      requires ch.Valid() && 0 <= node < |ch.levels|
      ensures Valid() && this.ch == ch && this.incoming == incoming && baseNode == node
      ensures Rest() == ch.Listing(node, incoming)
    {
      this.ch, this.incoming, baseNode, nextBase := ch, incoming, node, 0;
      nextEdge := if ch.lastShortcut[node] < 0 then NO_EDGE else |ch.base.edges| + ch.lastShortcut[node];
      current := HalfEdge(NO_EDGE, NO_EDGE, Inf, Inf);
    }

    method Next() returns (found: bool)
      requires Valid()
      modifies this`nextEdge, this`nextBase, this`current
      ensures Valid()
      ensures found <==> old(Rest()) != []
      ensures found ==> current == old(Rest())[0] && Rest() == old(Rest())[1..]
    {
      while nextEdge >= |ch.base.edges|
        invariant Valid() && Rest() == old(Rest())
        decreases nextEdge
      {
        found := NextShortcut();
        if found {
          return;
        }
      }
      while nextBase < |ch.base.adjacency[baseNode]|
        invariant Valid() && nextEdge < |ch.base.edges| && Rest() == old(Rest())
        decreases |ch.base.adjacency[baseNode]| - nextBase
      {
        found := NextBase();
        if found {
          return;
        }
      }
      return false;
    }

    /** Steps over one shortcut, which counts when it is open in the direction of the search. */
    method NextShortcut() returns (found: bool)
      requires Valid() && nextEdge >= |ch.base.edges|
      modifies this`nextEdge, this`current
      ensures Valid() && nextEdge < old(nextEdge)
      ensures old(Rest()) == (if found then [current] else []) + Rest()
    {
      var i := nextEdge - |ch.base.edges|;
      current := ch.shortcuts[i].Edge().End(nextEdge, baseNode);
      nextEdge := if i - 1 < 0 || ch.shortcuts[i - 1].nodeA != baseNode then NO_EDGE else nextEdge - 1;
      found := current.WeightOf(incoming).Fin?;
      ch.RunStep(baseNode, i, incoming, ch.BaseRun(baseNode, nextBase, incoming));
    }

    method NextBase() returns (found: bool)
      requires Valid() && nextEdge < |ch.base.edges| && nextBase < |ch.base.adjacency[baseNode]|
      modifies this`nextBase, this`current
      ensures Valid() && nextBase == old(nextBase) + 1
      ensures old(Rest()) == (if found then [current] else []) + Rest()
    {
      var id := ch.base.adjacency[baseNode][nextBase];
      assert id in ch.base.adjacency[baseNode];
      current := ch.base.edges[id].End(id, baseNode);
      nextBase := nextBase + 1;
      found := current.WeightOf(incoming).Fin?;
    }
  }
}
