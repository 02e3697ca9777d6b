/** Expanding and stalling nodes in a query of the hierarchy, and why neither loses the
    shortest walk. */
module CHSearch {
  import opened Walks
  import opened RoutingGraphs
  import opened SearchTrees
  import opened Meetings
  import opened CHStorages
  import opened Hierarchies
  import opened Unpacking
  import opened UpwardGraphs

  const STALL_PRECISION := 0.001

  /** The base arcs in the direction of a search. */
  ghost function BaseSteps(ch: CHGraph, reverse: bool): Graph {
    if reverse then Reversed(ChArcs(ch.base.edges, [])) else ChArcs(ch.base.edges, [])
  }

  /** A walk of the base graph beats the label of the node. */
  ghost predicate Beaten(base: Graph, k: Task, t: SearchTree, u: int) {
    u in t.best && Reaches(base, k.root, u, t.best[u].VisitedWeight() - STALL_PRECISION)
  }

  /** Only nodes with a beaten label were settled without being expanded. */
  ghost predicate StalledOk(base: Graph, k: Task, t: SearchTree, past: History) {
    forall u {:trigger Beaten(base, k, t, u)} :: u in past.settled && u !in past.expanded ==> Beaten(base, k, t, u)
  }

  /** The labels of settled nodes stay. */
  ghost predicate Keeps(t: SearchTree, t': SearchTree, past: History) {
    forall u :: u in past.settled && u in t.best ==> u in t'.best && t'.best[u] == t.best[u]
  }

  // ----- expanding

  /** The edges offered so far are relaxed, as far as they lead up. */
  ghost predicate Underway(ch: CHGraph, reverse: bool, k: Task, t: SearchTree, past: History, ko: Task, o: SearchTree, m: Meeting, done: seq<HalfEdge>)
    requires ch.Valid()
  {
    && Expanding(UpAdjacency(ch), reverse, k, t, past) && MeetingOk(k, t, ko, o, m, reverse)
    && forall h :: h in done && h.WeightOf(reverse).Fin? && Accepts(ch, t.curr.adjNode, h.adj) ==> Relaxed(t.best, StepArc(t.curr.adjNode, h, reverse))
  }

  function RelaxUp(ch: CHGraph, t: SearchTree, o: SearchTree, m: Meeting, h: HalfEdge, estimate: int -> real, reverse: bool): (SearchTree, Meeting) {
    if Accepts(ch, t.curr.adjNode, h.adj) then RelaxEdge(t, o, m, h, estimate, reverse) else (t, m)
  }

  lemma RelaxKeeps(g: Adjacency, k: Task, t: SearchTree, past: History, o: SearchTree, m: Meeting, h: HalfEdge, reverse: bool)
    requires Expanding(g, reverse, k, t, past) && HasEnd(g, t.curr.adjNode, h)
    ensures Keeps(t, RelaxEdge(t, o, m, h, k.potential, reverse).0, past)
  {
    if Improves(t, h, reverse) {
      var a := StepArc(t.curr.adjNode, h, reverse);
      assert IsStep(g, reverse, a);
      ImprovementIsOpen(k, t, past, a);
    }
  }

  lemma UnderwayStep(ch: CHGraph, reverse: bool, k: Task, t0: SearchTree, t: SearchTree, past: History, ko: Task, o: SearchTree, m: Meeting,
                     done: seq<HalfEdge>, h: HalfEdge, more: seq<HalfEdge>)
    requires Hierarchical(ch) && Labels(ko, o) && Underway(ch, reverse, k, t, past, ko, o, m, done) && Keeps(t0, t, past)
    requires 0 <= t.curr.adjNode < |ch.levels| && h in ch.Listing(t.curr.adjNode, reverse) && more == done + [h]
    ensures var (t', m') := RelaxUp(ch, t, o, m, h, k.potential, reverse);
            && Underway(ch, reverse, k, t', past, ko, o, m', more) && t'.curr == t.curr
            && m'.Weight().AtMost(m.Weight()) && Keeps(t0, t', past)
  {
    if Accepts(ch, t.curr.adjNode, h.adj) {
      var g := UpAdjacency(ch);
      UpAdjacencyOk(ch);
      ch.ListingExact(t.curr.adjNode, reverse, h);
      UpAdjacencyEnds(ch, t.curr.adjNode, h);
      if h.edge == t.curr.EdgeId() {
        UTurnRelaxed(g, reverse, k, t, past, h);
      }
      RelaxEdgeOk(g, k, t, past, ko, o, m, h, reverse);
      RelaxKeeps(g, k, t, past, o, m, h, reverse);
    }
  }

  lemma OneMore(all: seq<HalfEdge>, i: nat)
    requires i < |all|
    ensures all[..i + 1] == all[..i] + [all[i]] && all[i] in all
  {
  }

  lemma UnderwayEnd(ch: CHGraph, reverse: bool, k: Task, t: SearchTree, past: History, ko: Task, o: SearchTree, m: Meeting)
    requires Hierarchical(ch) && 0 <= t.curr.adjNode < |ch.levels|
    requires Underway(ch, reverse, k, t, past, ko, o, m, ch.Listing(t.curr.adjNode, reverse))
    ensures Ok(k, t, past.(expanded := past.expanded + {t.curr.adjNode}))
  {
    var g, u := UpAdjacency(ch), t.curr.adjNode;
    forall a | a in k.graph && a.from == u ensures Relaxed(t.best, a) {
      assert IsStep(g, reverse, a);
      var h :| HasEnd(g, u, h) && h.WeightOf(reverse).Fin? && a == StepArc(u, h, reverse);
      UpAdjacencyEnds(ch, u, h);
      ch.ListingExact(u, reverse, h);
    }
    ExpandedOk(k, t, past, u);
  }

  lemma WholeList(all: seq<HalfEdge>, i: nat)
    requires i <= |all| && all[i..] == []
    ensures all[..i] == all
  {
  }

  /** The edges a query relaxes at a node. */
  ghost function Offered(ch: CHGraph, u: int, reverse: bool): seq<HalfEdge> {
    if ch.Valid() && 0 <= u < |ch.levels| then Upwards(ch, u, ch.Listing(u, reverse)) else []
  }

  lemma RelaxUpNext(ch: CHGraph, t: SearchTree, o: SearchTree, m: Meeting, edges: seq<HalfEdge>, h: HalfEdge, estimate: int -> real, reverse: bool)
    requires RelaxAll(t, o, m, Upwards(ch, t.curr.adjNode, edges), estimate, reverse).0.curr == t.curr
    ensures var (t1, m1) := RelaxAll(t, o, m, Upwards(ch, t.curr.adjNode, edges), estimate, reverse);
            RelaxAll(t, o, m, Upwards(ch, t.curr.adjNode, edges + [h]), estimate, reverse) == RelaxUp(ch, t1, o, m1, h, estimate, reverse)
  {
    var up := Upwards(ch, t.curr.adjNode, edges);
    UpwardsNext(ch, t.curr.adjNode, edges, h);
    RelaxNext(t, o, m, up, h, estimate, reverse);
    assert up + [] == up;
  }

  /** Relaxing does not change which node was popped. */
  lemma {:induction false} RelaxAllCurr(t: SearchTree, o: SearchTree, m: Meeting, edges: seq<HalfEdge>, estimate: int -> real, reverse: bool)
    ensures RelaxAll(t, o, m, edges, estimate, reverse).0.curr == t.curr
  {
    if edges != [] {
      RelaxAllCurr(t, o, m, edges[..|edges| - 1], estimate, reverse);
    }
  }

  lemma {:induction false} RelaxOfferedOk(ch: CHGraph, reverse: bool, k: Task, t: SearchTree, past: History, ko: Task, o: SearchTree, m: Meeting, i: nat)
    requires Hierarchical(ch) && Labels(ko, o) && Underway(ch, reverse, k, t, past, ko, o, m, [])
    requires 0 <= t.curr.adjNode < |ch.levels| && i <= |ch.Listing(t.curr.adjNode, reverse)|
    ensures var all := ch.Listing(t.curr.adjNode, reverse);
            var (t', m') := RelaxAll(t, o, m, Upwards(ch, t.curr.adjNode, all[..i]), k.potential, reverse);
            && Underway(ch, reverse, k, t', past, ko, o, m', all[..i]) && t'.curr == t.curr
            && m'.Weight().AtMost(m.Weight()) && Keeps(t, t', past)
  {
    var all := ch.Listing(t.curr.adjNode, reverse);
    if i > 0 {
      RelaxOfferedOk(ch, reverse, k, t, past, ko, o, m, i - 1);
      var (t1, m1) := RelaxAll(t, o, m, Upwards(ch, t.curr.adjNode, all[..i - 1]), k.potential, reverse);
      OneMore(all, i - 1);
      UnderwayStep(ch, reverse, k, t, t1, past, ko, o, m1, all[..i - 1], all[i - 1], all[..i]);
      RelaxUpNext(ch, t, o, m, all[..i - 1], all[i - 1], k.potential, reverse);
    }
  }

  /** Relaxing the edges that lead up from the popped node expands it. */
  lemma FillOk(ch: CHGraph, reverse: bool, k: Task, t: SearchTree, past: History, ko: Task, o: SearchTree, m: Meeting)
    requires Hierarchical(ch) && Labels(ko, o) && Underway(ch, reverse, k, t, past, ko, o, m, [])
    ensures var (t', m') := RelaxAll(t, o, m, Offered(ch, t.curr.adjNode, reverse), k.potential, reverse);
            && Ok(k, t', past.(expanded := past.expanded + {t.curr.adjNode})) && LabelsWithin(t', UpAdjacency(ch))
            && MeetingOk(k, t', ko, o, m', reverse) && t'.curr == t.curr && m'.Weight().AtMost(m.Weight()) && Keeps(t, t', past)
  {
    var all := ch.Listing(t.curr.adjNode, reverse);
    RelaxOfferedOk(ch, reverse, k, t, past, ko, o, m, |all|);
    WholeList(all, |all|);
    var (t', m') := RelaxAll(t, o, m, Offered(ch, t.curr.adjNode, reverse), k.potential, reverse);
    UnderwayEnd(ch, reverse, k, t', past, ko, o, m');
  }

  /** Relaxes the edges that lead up from the popped node. */
  method FillEdges(ch: CHGraph, t: SearchTree, o: SearchTree, m: Meeting, estimate: int -> real, reverse: bool) returns (t': SearchTree, m': Meeting)
    requires ch.Valid() && 0 <= t.curr.adjNode < |ch.levels|
    ensures (t', m') == RelaxAll(t, o, m, Offered(ch, t.curr.adjNode, reverse), estimate, reverse)
  {
    t', m' := t, m;
    var u := t.curr.adjNode;
    var iter := new RoutingCHEdgeIterator(ch, reverse, u);
    ghost var all, i := ch.Listing(u, reverse), 0;
    while true
      invariant iter.Valid() && i <= |all| && iter.Rest() == all[i..]
      invariant (t', m') == RelaxAll(t, o, m, Upwards(ch, u, all[..i]), estimate, reverse)
      decreases |all| - i
    {
      var found := iter.Next();
      if !found {
        break;
      }
      OneMore(all, i);
      RelaxAllCurr(t, o, m, Upwards(ch, u, all[..i]), estimate, reverse);
      RelaxUpNext(ch, t, o, m, all[..i], iter.current, estimate, reverse);
      var next := RelaxUp(ch, t', o, m', iter.current, estimate, reverse);
      t', m' := next.0, next.1;
      i := i + 1;
    }
    WholeList(all, i);
  }

  // ----- stalling

  lemma CoversReversed(h: Graph, g: Graph)
    requires Covers(h, g)
    ensures Covers(Reversed(h), Reversed(g))
  {
    forall a | a in Reversed(g) ensures Reaches(Reversed(h), a.from, a.to, a.weight) {
      FlipMember(g, a);
      ReachesReversed(h, a.to, a.from, a.weight);
    }
  }

  /** The base graph has a walk for everything a search finds. */
  lemma SearchCovered(ch: CHGraph, reverse: bool)
    requires Hierarchical(ch)
    ensures Covers(BaseSteps(ch, reverse), if reverse then Reversed(ChArcs(ch.base.edges, ch.shortcuts)) else ChArcs(ch.base.edges, ch.shortcuts))
    ensures Covers(BaseSteps(ch, reverse), Steps(UpAdjacency(ch), reverse))
  {
    var base, all, up := ChArcs(ch.base.edges, []), ChArcs(ch.base.edges, ch.shortcuts), Steps(UpAdjacency(ch), reverse);
    BaseCovers(ch);
    CoversReversed(base, all);
    var towards := if reverse then Reversed(all) else all;
    forall a | a in up ensures a in towards {
      UpStep(ch, reverse, a);
      FlipMember(all, a);
    }
    CoversSubset(towards, up);
    CoversTransitive(BaseSteps(ch, reverse), towards, up);
  }

  /** Over the edge h the label of the other end leads to the popped node with a weight clearly
      below that of the popped entry. */
  ghost predicate Stalls(t: SearchTree, h: HalfEdge, reverse: bool) {
    && h.WeightOf(!reverse).Fin? && h.edge != t.curr.EdgeId() && h.adj in t.best
    && t.best[h.adj].weight + h.WeightOf(!reverse).value - t.curr.weight < -STALL_PRECISION
  }

  ghost predicate AnyStalls(t: SearchTree, edges: seq<HalfEdge>, reverse: bool) {
    edges != [] && (Stalls(t, edges[0], reverse) || AnyStalls(t, edges[1..], reverse))
  }

  lemma {:induction false} StallingEdge(t: SearchTree, edges: seq<HalfEdge>, reverse: bool) returns (h: HalfEdge)
    requires AnyStalls(t, edges, reverse)
    ensures h in edges && Stalls(t, h, reverse)
  {
    h := edges[0];
    if !Stalls(t, h, reverse) {
      h := StallingEdge(t, edges[1..], reverse);
    }
  }

  /** The popped entry can be left unexpanded. */
  ghost predicate Stallable(ch: CHGraph, t: SearchTree, reverse: bool) {
    ch.Valid() && 0 <= t.curr.adjNode < |ch.levels| && AnyStalls(t, ch.Listing(t.curr.adjNode, !reverse), reverse)
  }

  /** Every edge a node offers is an arc towards it, or from it, that the base graph covers. */
  lemma OfferCovered(ch: CHGraph, u: int, h: HalfEdge, reverse: bool)
    requires Hierarchical(ch) && 0 <= u < |ch.levels| && ch.Offers(u, h) && h.WeightOf(!reverse).Fin?
    ensures Reaches(BaseSteps(ch, reverse), h.adj, u, h.WeightOf(!reverse).value)
  {
    var all := ChArcs(ch.base.edges, ch.shortcuts);
    SearchCovered(ch, reverse);
    OffersEdge(ch, u, h);
    var a := Arc(h.edge, h.adj, u, h.WeightOf(!reverse).value);
    assert a in if reverse then Reversed(all) else all by {
      FlipMember(all, a);
    }
  }

  /** The label of a stalled node is beaten, by a walk that may leave the upward graph. */
  lemma StallBeats(ch: CHGraph, k: Task, t: SearchTree, past: History, reverse: bool)
    requires Hierarchical(ch) && k.graph == Steps(UpAdjacency(ch), reverse) && Ok(k, t, past) && Popped(t, past)
    requires forall v :: k.potential(v) == 0.0
    requires Stallable(ch, t, reverse)
    ensures Beaten(BaseSteps(ch, reverse), k, t, t.curr.adjNode)
  {
    var base, u := BaseSteps(ch, reverse), t.curr.adjNode;
    var h := StallingEdge(t, ch.Listing(u, !reverse), reverse);
    var e := t.best[h.adj];
    ch.ListingExact(u, !reverse, h);
    SearchCovered(ch, reverse);
    assert k.EntryOk(e);
    k.PathOk(e);
    CoversWalk(base, k.graph, k.root, h.adj, e.Path());
    OfferCovered(ch, u, h, reverse);
    ReachesJoin(base, k.root, h.adj, u, e.VisitedWeight(), h.WeightOf(!reverse).value);
    ReachesLonger(base, k.root, u, e.VisitedWeight() + h.WeightOf(!reverse).value, t.best[u].VisitedWeight() - STALL_PRECISION);
  }

  /** Whether the popped entry can be left unexpanded. */
  method EntryIsStallable(ch: CHGraph, t: SearchTree, reverse: bool) returns (stallable: bool)
    requires ch.Valid() && 0 <= t.curr.adjNode < |ch.levels|
    ensures stallable <==> Stallable(ch, t, reverse)
  {
    var iter := new RoutingCHEdgeIterator(ch, !reverse, t.curr.adjNode);
    while true
      invariant iter.Valid() && (Stallable(ch, t, reverse) <==> AnyStalls(t, iter.Rest(), reverse))
      decreases |iter.Rest()|
    {
      var found := iter.Next();
      if !found {
        return false;
      }
      var h := iter.current;
      if h.WeightOf(!reverse).Fin? && h.edge != t.curr.EdgeId() && h.adj in t.best
         && t.best[h.adj].weight + h.WeightOf(!reverse).value - t.curr.weight < -STALL_PRECISION {
        return true;
      }
    }
  }

  // ----- why the shortest walk is not lost

  lemma {:induction false} PotentialAlong(g: Graph, potential: int -> real, s: int, v: int, p: Walk)
    requires IsWalk(g, s, v, p) && forall a :: a in g ==> potential(a.from) <= a.weight + potential(a.to)
    ensures potential(s) <= Length(p) + potential(v)
    decreases |p|
  {
    if p != [] {
      WalkUncons(g, s, v, p);
      PotentialAlong(g, potential, p[0].to, v, p[1..]);
    }
  }

  /** The search is at least as far as the walk ends, has a label for its end that is no worse,
      or met a stalled node on it: then the base graph has a walk that is lighter by more than
      the precision. */
  ghost predicate Side(base: Graph, k: Task, t: SearchTree, past: History, v: int, w: real) {
    || (past.settled != t.best.Keys && w + k.potential(v) >= t.curr.weight)
    || (v in t.best && t.best[v].VisitedWeight() <= w)
    || Reaches(base, k.root, v, w - STALL_PRECISION)
  }

  /** Follows the walk to its first stalled node, if there is one. */
  lemma SideOk(base: Graph, k: Task, t: SearchTree, past: History, v: int, p: Walk)
    requires Ok(k, t, past) && StalledOk(base, k, t, past) && Covers(base, k.graph) && IsWalk(k.graph, k.root, v, p)
    ensures Side(base, k, t, past, v, Length(p))
  {
    var i := 0;
    while i < |p| && (NodeAt(k.root, p, i) in past.settled ==> NodeAt(k.root, p, i) in past.expanded)
      invariant 0 <= i <= |p|
      invariant forall j :: 0 <= j < i ==> (NodeAt(k.root, p, j) in past.settled ==> NodeAt(k.root, p, j) in past.expanded)
    {
      i := i + 1;
    }
    var u, q, r := NodeAt(k.root, p, i), p[..i], p[i..];
    WalkSplit(k.graph, k.root, v, p, i);
    PotentialAlong(k.graph, k.potential, u, v, r);
    if Length(q) + k.potential(u) < t.curr.weight || past.settled == t.best.Keys {
      forall j | 0 <= j < |q| ensures NodeAt(k.root, q, j) in past.settled ==> NodeAt(k.root, q, j) in past.expanded {
        assert NodeAt(k.root, q, j) == NodeAt(k.root, p, j);
      }
      ClosedBelow(k, t, past, u, q);
      if i < |p| {
        assert Beaten(base, k, t, u);
        CoversWalk(base, k.graph, u, v, r);
        ReachesJoin(base, k.root, u, v, t.best[u].VisitedWeight() - STALL_PRECISION, Length(r));
        ReachesLonger(base, k.root, v, t.best[u].VisitedWeight() - STALL_PRECISION + Length(r), Length(p) - STALL_PRECISION);
      } else {
        assert q == p;
      }
    }
  }
}
