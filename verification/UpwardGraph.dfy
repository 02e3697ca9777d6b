/** The graph a query of the hierarchy searches: from each end, only towards higher levels. */
module UpwardGraphs {
  import opened Walks
  import opened RoutingGraphs
  import opened CHStorages
  import opened Hierarchies
  import opened Unpacking

  /** The level filter of a query. */
  predicate Accepts(ch: CHGraph, baseNode: int, adjNode: int) {
    baseNode < 0 || adjNode < 0 || baseNode >= |ch.levels| || adjNode >= |ch.levels| || ch.levels[baseNode] <= ch.levels[adjNode]
  }

  ghost function Upwards(ch: CHGraph, node: int, edges: seq<HalfEdge>): (r: seq<HalfEdge>)
    ensures forall h :: h in r <==> h in edges && Accepts(ch, node, h.adj)
  {
    if edges == [] then []
    else (if Accepts(ch, node, edges[0].adj) then [edges[0]] else []) + Upwards(ch, node, edges[1..])
  }

  lemma {:induction false} UpwardsNext(ch: CHGraph, node: int, edges: seq<HalfEdge>, h: HalfEdge)
    ensures Upwards(ch, node, edges + [h]) == Upwards(ch, node, edges) + (if Accepts(ch, node, h.adj) then [h] else [])
  {
    if edges != [] {
      assert (edges + [h])[1..] == edges[1..] + [h];
      UpwardsNext(ch, node, edges[1..], h);
    }
  }

  ghost function UpAdjacency(ch: CHGraph): Adjacency
    requires ch.Valid()
  {
    seq(|ch.levels|, u requires 0 <= u < |ch.levels| => Upwards(ch, u, ch.Listing(u, false) + ch.Listing(u, true)))
  }

  /** The half edges of the upward graph are what the iteration offers and the filter accepts. */
  lemma UpAdjacencyEnds(ch: CHGraph, u: int, h: HalfEdge)
    requires ch.Valid()
    ensures HasEnd(UpAdjacency(ch), u, h) <==>
            0 <= u < |ch.levels| && ch.Offers(u, h) && (h.leaving.Fin? || h.arriving.Fin?) && Accepts(ch, u, h.adj)
  {
    if 0 <= u < |ch.levels| {
      ch.ListingExact(u, false, h);
      ch.ListingExact(u, true, h);
    }
  }

  /** What a node offers is one of its edges. */
  lemma OffersEdge(ch: CHGraph, u: int, h: HalfEdge)
    requires ch.Valid() && 0 <= u < |ch.levels| && ch.Offers(u, h)
    ensures 0 <= h.edge < ch.EdgeCount() && ch.Edge(h.edge).Links(u, h.adj) && 0 <= h.adj < |ch.levels|
    ensures h.leaving == ch.Edge(h.edge).WeightFrom(u) && h.arriving == ch.Edge(h.edge).WeightFrom(h.adj)
    ensures h.edge >= |ch.base.edges| ==> Above(ch.levels, u, h.adj)
  {
    if i :| 0 <= i < |ch.shortcuts| && ch.shortcuts[i].nodeA == u && h == ch.shortcuts[i].Edge().End(|ch.base.edges| + i, u) {
      assert ShortcutLeads(ch.levels, ch.shortcuts[i]);
    }
  }

  lemma EdgeOffered(ch: CHGraph, id: int, u: int, w: int)
    requires ch.Valid() && 0 <= id < ch.EdgeCount() && ch.Edge(id).Links(u, w)
    requires id < |ch.base.edges| || Above(ch.levels, u, w)
    ensures ch.Offers(u, ch.Edge(id).End(id, u)) && 0 <= u < |ch.levels| && 0 <= w < |ch.levels|
  {
    if id < |ch.base.edges| {
      assert ch.base.edges[id].nodeA == u || ch.base.edges[id].nodeB == u;
    } else {
      var i := id - |ch.base.edges|;
      assert ShortcutLeads(ch.levels, ch.shortcuts[i]);
      assert ch.shortcuts[i].nodeA == u;
    }
  }

  /** The arcs of the forward search lead up, those of the backward search lead up against
      their direction. */
  lemma UpStep(ch: CHGraph, reverse: bool, a: Arc)
    requires ch.Valid() && LevelsDiffer(ch.levels)
    ensures IsStep(UpAdjacency(ch), reverse, a) <==>
            IsChArc(ch.base.edges, ch.shortcuts, if reverse then Flip(a) else a) && Above(ch.levels, a.from, a.to)
  {
    if IsStep(UpAdjacency(ch), reverse, a) {
      var h :| HasEnd(UpAdjacency(ch), a.from, h) && h.WeightOf(reverse).Fin? && a == StepArc(a.from, h, reverse);
      UpAdjacencyEnds(ch, a.from, h);
      OffersEdge(ch, a.from, h);
    }
    if IsChArc(ch.base.edges, ch.shortcuts, if reverse then Flip(a) else a) && Above(ch.levels, a.from, a.to) {
      var h := ch.Edge(a.edge).End(a.edge, a.from);
      EdgeOffered(ch, a.edge, a.from, a.to);
      UpAdjacencyEnds(ch, a.from, h);
    }
  }

  lemma UpSteps(ch: CHGraph)
    requires ch.Valid() && LevelsDiffer(ch.levels)
    ensures Steps(UpAdjacency(ch), false) == UpArcs(ch.base.edges, ch.shortcuts, ch.levels)
    ensures Reversed(Steps(UpAdjacency(ch), true)) == DownArcs(ch.base.edges, ch.shortcuts, ch.levels)
  {
    forall a ensures a in Steps(UpAdjacency(ch), false) <==> a in UpArcs(ch.base.edges, ch.shortcuts, ch.levels) {
      UpStep(ch, false, a);
    }
    forall a ensures a in Reversed(Steps(UpAdjacency(ch), true)) <==> a in DownArcs(ch.base.edges, ch.shortcuts, ch.levels) {
      FlipMember(Steps(UpAdjacency(ch), true), a);
      UpStep(ch, true, Flip(a));
      assert Flip(Flip(a)) == a;
    }
  }

  lemma BaseNonNegative(base: BaseGraph)
    requires base.Valid()
    ensures NonNegative(ChArcs(base.edges, []))
  {
  }

  lemma EdgeNonNegative(ch: CHGraph, id: int, u: int, w: int)
    requires ch.Valid() && Unpackable(ch.base.edges, ch.shortcuts)
    requires 0 <= id < ch.EdgeCount() && ch.Edge(id).Links(u, w) && ch.Edge(id).WeightFrom(u).Fin?
    ensures ch.Edge(id).WeightFrom(u).value >= 0.0
  {
    var p := UnfoldedWalk(ch, id, u, w);
    BaseNonNegative(ch.base);
    LengthNonNegative(ChArcs(ch.base.edges, []), p);
  }

  /** The upward graph is fit for the search: an edge belongs to its lower end alone. */
  lemma UpAdjacencyOk(ch: CHGraph)
    requires ch.Valid() && LevelsDiffer(ch.levels) && Unpackable(ch.base.edges, ch.shortcuts)
    ensures InRange(UpAdjacency(ch)) && NonNegativeWeights(UpAdjacency(ch)) && EdgeIdsUnique(UpAdjacency(ch))
  {
    var g := UpAdjacency(ch);
    forall u, h | HasEnd(g, u, h)
      ensures 0 <= h.adj < |g| && 0 <= h.edge < ch.EdgeCount() && h.adj != u && Above(ch.levels, u, h.adj)
      ensures ch.Edge(h.edge).Links(u, h.adj) && h == ch.Edge(h.edge).End(h.edge, u)
      ensures (h.leaving.Fin? ==> h.leaving.value >= 0.0) && (h.arriving.Fin? ==> h.arriving.value >= 0.0)
    {
      UpAdjacencyEnds(ch, u, h);
      OffersEdge(ch, u, h);
      if h.leaving.Fin? { EdgeNonNegative(ch, h.edge, u, h.adj); }
      if h.arriving.Fin? { EdgeNonNegative(ch, h.edge, h.adj, u); }
    }
  }
}
