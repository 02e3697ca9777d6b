/** Unpacking shortcuts: every edge of the hierarchy stands for a walk of base edges. */
module Unpacking {
  import opened Walks
  import opened Paths
  import opened CHStorages
  import opened ShortcutTables
  import opened Hierarchies

  /** An edge seen from its adjacent node, or the finding that it does not touch that node. */
  datatype EdgeState = NotTouching | EdgeState(edge: int, baseNode: int, adjNode: int)

  function GetEdgeIteratorState(ch: CHGraph, edge: int, adjNode: int): EdgeState
    requires 0 <= edge < ch.EdgeCount()
  {
    var e := ch.Edge(edge);
    if adjNode == e.nodeB then EdgeState(edge, e.nodeA, e.nodeB)
    else if adjNode == e.nodeA then EdgeState(edge, e.nodeB, e.nodeA)
    else NotTouching
  }

  /** The edge connects the two nodes, and so does what it stands for. */
  ghost predicate Connects(ch: CHGraph, id: int, u: int, w: int) {
    Unpackable(ch.base.edges, ch.shortcuts) && 0 <= id < ch.EdgeCount() && ch.Edge(id).Links(u, w)
  }

  /** The node a shortcut leads over. */
  ghost function Middle(ch: CHGraph, id: int): int
    requires |ch.base.edges| <= id < ch.EdgeCount() && Unpackable(ch.base.edges, ch.shortcuts)
  {
    var sc := ch.shortcuts[id - |ch.base.edges|];
    ch.Edge(sc.skipped1).Other(sc.nodeA)
  }

  /** The two edges a shortcut from u leads over, in order. */
  ghost function Halves(ch: CHGraph, id: int, u: int, w: int): (int, int)
    requires Connects(ch, id, u, w) && id >= |ch.base.edges|
  {
    var sc := ch.shortcuts[id - |ch.base.edges|];
    if u == sc.nodeA then (sc.skipped1, sc.skipped2) else (sc.skipped2, sc.skipped1)
  }

  lemma HalvesOk(ch: CHGraph, id: int, u: int, w: int)
    requires Connects(ch, id, u, w) && id >= |ch.base.edges|
    ensures var (first, second), m := Halves(ch, id, u, w), Middle(ch, id);
            && first < id && second < id && Connects(ch, first, u, m) && Connects(ch, second, m, w)
            && Halves(ch, id, w, u) == (second, first)
            && (ch.Edge(id).WeightFrom(u).Fin? ==> ch.Edge(first).WeightFrom(u).Plus(ch.Edge(second).WeightFrom(m)) == ch.Edge(id).WeightFrom(u))
  {
    var i := id - |ch.base.edges|;
    assert LeadsOver(ch.base.edges, ch.shortcuts, i, ch.shortcuts[i].skipped1, ch.shortcuts[i].skipped2);
  }

  /** The base edges an edge stands for, from u to w. Skipped edges are older, so this ends. */
  ghost function Unfolded(ch: CHGraph, id: int, u: int, w: int): seq<int>
    requires Connects(ch, id, u, w)
    decreases id
  {
    if id < |ch.base.edges| then [id] else
    HalvesOk(ch, id, u, w);
    var (first, second) := Halves(ch, id, u, w);
    Unfolded(ch, first, u, Middle(ch, id)) + Unfolded(ch, second, Middle(ch, id), w)
  }

  lemma UnfoldedShortcut(ch: CHGraph, id: int, u: int, w: int, first: int, second: int)
    requires Connects(ch, id, u, w) && id >= |ch.base.edges| && Halves(ch, id, u, w) == (first, second)
    ensures var m := Middle(ch, id);
            && first < id && second < id && Connects(ch, first, u, m) && Connects(ch, second, m, w)
            && Unfolded(ch, id, u, w) == Unfolded(ch, first, u, m) + Unfolded(ch, second, m, w)
  {
    HalvesOk(ch, id, u, w);
  }

  /** Seen from the other end, the same edges come in the opposite order. */
  lemma {:induction false} UnfoldedBackwards(ch: CHGraph, id: int, u: int, w: int)
    requires Connects(ch, id, u, w)
    ensures Unfolded(ch, id, w, u) == ReversedIds(Unfolded(ch, id, u, w))
    decreases id
  {
    if id >= |ch.base.edges| {
      HalvesOk(ch, id, u, w);
      HalvesOk(ch, id, w, u);
      var (first, second) := Halves(ch, id, u, w);
      var m := Middle(ch, id);
      UnfoldedBackwards(ch, first, u, m);
      UnfoldedBackwards(ch, second, m, w);
      UnfoldedShortcut(ch, id, u, w, first, second);
      UnfoldedShortcut(ch, id, w, u, second, first);
      ReversedConcat(Unfolded(ch, first, u, m), Unfolded(ch, second, m, w));
    }
  }

  /** In an open direction the base edges form a walk of exactly the weight of the edge. */
  lemma {:induction false} UnfoldedWalk(ch: CHGraph, id: int, u: int, w: int) returns (p: Walk)
    requires Connects(ch, id, u, w) && ch.Edge(id).WeightFrom(u).Fin?
    ensures IsWalk(ChArcs(ch.base.edges, []), u, w, p) && Length(p) == ch.Edge(id).WeightFrom(u).value
    ensures EdgeIds(p) == Unfolded(ch, id, u, w)
    decreases id
  {
    var base := ChArcs(ch.base.edges, []);
    if id < |ch.base.edges| {
      var a := Arc(id, u, w, ch.Edge(id).WeightFrom(u).value);
      assert a in base;
      LengthOne(a);
      return [a];
    }
    HalvesOk(ch, id, u, w);
    var (first, second) := Halves(ch, id, u, w);
    var m := Middle(ch, id);
    var q := UnfoldedWalk(ch, first, u, m);
    var r := UnfoldedWalk(ch, second, m, w);
    WalkConcat(base, u, m, w, q, r);
    EdgeIdsConcat(q, r);
    return q + r;
  }

  /** An edge of the preparation stands for as many base edges as it counts. */
  lemma {:induction false} OriginalEdgeCount(t: Tables, ch: CHGraph, id: int, u: int, w: int)
    requires TablesOk(t, NO_EDGE) && StoredFrom(t, ch) && Unpackable(ch.base.edges, ch.shortcuts)
    requires id in t.edges && t.Settled(id) && Connects(ch, t.StoredId(id), u, w)
    ensures |Unfolded(ch, t.StoredId(id), u, w)| == t.edges[id].origEdgeCount
    decreases t.StoredId(id)
  {
    var c, e := t.StoredId(id), t.edges[id];
    assert AgreesWithBase(t.base, t.edges, id);
    if id >= |t.base| {
      var skips := SkipsOfStored(t, ch, id, u, w);
      var (first, second) := skips;
      var m := Middle(ch, c);
      HalvesOk(ch, c, u, w);
      UnfoldedShortcut(ch, c, u, w, t.StoredId(first), t.StoredId(second));
      OriginalEdgeCount(t, ch, first, u, m);
      OriginalEdgeCount(t, ch, second, m, w);
    }
  }

  lemma SkipsOfStored(t: Tables, ch: CHGraph, id: int, u: int, w: int) returns (skips: (int, int))
    requires TablesOk(t, NO_EDGE) && StoredFrom(t, ch) && Unpackable(ch.base.edges, ch.shortcuts)
    requires id in t.edges && id >= |t.base| && t.Settled(id) && Connects(ch, t.StoredId(id), u, w)
    ensures skips.0 in t.edges && skips.1 in t.edges && t.Settled(skips.0) && t.Settled(skips.1)
    ensures t.edges[id].origEdgeCount == t.edges[skips.0].origEdgeCount + t.edges[skips.1].origEdgeCount
    ensures t.StoredId(id) >= |t.base| && Halves(ch, t.StoredId(id), u, w) == (t.StoredId(skips.0), t.StoredId(skips.1))
  {
    var c, e := t.StoredId(id), t.edges[id];
    assert StoredShortcutOk(t, NO_EDGE, id) && PrepareShortcutOk(t, NO_EDGE, id);
    var i := c - |t.base|;
    assert ch.shortcuts[i] == WithMapped(|t.base|, t.shortcutFor, t.shortcuts[i]);
    skips := if Halves(ch, c, u, w) == (t.StoredId(e.skipped1), t.StoredId(e.skipped2)) then (e.skipped1, e.skipped2) else (e.skipped2, e.skipped1);
  }

  /** So the hierarchy offers no walk that the base graph does not have. */
  lemma BaseCovers(ch: CHGraph)
    requires Unpackable(ch.base.edges, ch.shortcuts)
    ensures Covers(ChArcs(ch.base.edges, []), ChArcs(ch.base.edges, ch.shortcuts))
  {
    forall a | a in ChArcs(ch.base.edges, ch.shortcuts) ensures Reaches(ChArcs(ch.base.edges, []), a.from, a.to, a.weight) {
      var p := UnfoldedWalk(ch, a.edge, a.from, a.to);
      ReachesWalk(ChArcs(ch.base.edges, []), a.from, a.to, p);
    }
  }

  class ShortcutUnpacker {
    const ch: CHGraph
    var reverseOrder: bool
    var visited: seq<int>

    constructor (ch: CHGraph)
      ensures this.ch == ch && visited == []
    {
      this.ch, reverseOrder, visited := ch, false, [];
    }

    /** Visits the base edges of an edge from its base node to the adjacent one, or the other
        way round in reverse order. */
    method VisitOriginalEdges(edge: int, adjNode: int, reverseOrder: bool, ghost baseNode: int)
      requires Connects(ch, edge, baseNode, adjNode)
      modifies this
      ensures visited == old(visited) + if reverseOrder then Unfolded(ch, edge, adjNode, baseNode) else Unfolded(ch, edge, baseNode, adjNode)
    {
      this.reverseOrder := reverseOrder;
      ExpandEdge(GetEdgeIteratorState(ch, edge, adjNode));
    }

    method ExpandEdge(e: EdgeState)
      requires e.EdgeState? && Connects(ch, e.edge, e.baseNode, e.adjNode)
      modifies this`visited
      ensures visited == old(visited) + if reverseOrder then Unfolded(ch, e.edge, e.adjNode, e.baseNode) else Unfolded(ch, e.edge, e.baseNode, e.adjNode)
      decreases e.edge, 1
    {
      if e.edge < |ch.base.edges| {
        visited := visited + [e.edge];
        return;
      }
      var sc := ch.shortcuts[e.edge - |ch.base.edges|];
      HalvesOk(ch, e.edge, e.baseNode, e.adjNode);
      HalvesOk(ch, e.edge, e.adjNode, e.baseNode);
      ExpandSkippedEdges(sc.skipped1, sc.skipped2, e.edge, e.baseNode, e.adjNode);
    }

    /** The skipped edges are stored in the order of the shortcut's ends; seen from the other
        end they change places. */
    method SkippedEdges(skipped1: int, skipped2: int, ghost edge: int, ghost baseNode: int, adjNode: int) returns (sk1: EdgeState, sk2: EdgeState)
      requires Connects(ch, edge, baseNode, adjNode) && edge >= |ch.base.edges|
      requires skipped1 == ch.shortcuts[edge - |ch.base.edges|].skipped1 && skipped2 == ch.shortcuts[edge - |ch.base.edges|].skipped2
      requires 0 <= skipped1 < edge && 0 <= skipped2 < edge
      ensures sk1 == EdgeState(Halves(ch, edge, baseNode, adjNode).0, baseNode, Middle(ch, edge))
      ensures sk2 == EdgeState(Halves(ch, edge, baseNode, adjNode).1, Middle(ch, edge), adjNode)
    {
      HalvesOk(ch, edge, baseNode, adjNode);
      sk2 := GetEdgeIteratorState(ch, skipped2, adjNode);
      if sk2.NotTouching? {
        sk2 := GetEdgeIteratorState(ch, skipped1, adjNode);
        sk1 := GetEdgeIteratorState(ch, skipped2, sk2.baseNode);
      } else {
        sk1 := GetEdgeIteratorState(ch, skipped1, sk2.baseNode);
      }
    }

    method ExpandSkippedEdges(skipped1: int, skipped2: int, ghost edge: int, ghost baseNode: int, adjNode: int)
      requires Connects(ch, edge, baseNode, adjNode) && edge >= |ch.base.edges|
      requires skipped1 == ch.shortcuts[edge - |ch.base.edges|].skipped1 && skipped2 == ch.shortcuts[edge - |ch.base.edges|].skipped2
      requires 0 <= skipped1 < edge && 0 <= skipped2 < edge
      modifies this`visited
      ensures visited == old(visited) + if reverseOrder then Unfolded(ch, edge, adjNode, baseNode) else Unfolded(ch, edge, baseNode, adjNode)
      decreases edge, 0
    {
      var sk1, sk2 := SkippedEdges(skipped1, skipped2, edge, baseNode, adjNode);
      HalvesOk(ch, edge, baseNode, adjNode);
      if reverseOrder {
        UnfoldedShortcut(ch, edge, adjNode, baseNode, sk2.edge, sk1.edge);
        ExpandEdge(sk2);
        ExpandEdge(sk1);
      } else {
        UnfoldedShortcut(ch, edge, baseNode, adjNode, sk1.edge, sk2.edge);
        ExpandEdge(sk1);
        ExpandEdge(sk2);
      }
    }
  }
}
