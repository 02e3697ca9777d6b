/** Routing on a contraction hierarchy from end to end: the query, the extraction of its path
    with all shortcuts unpacked, and the promise that it is a shortest path of the base graph. */
module CHRouting {
  import opened Walks
  import opened Paths
  import opened RoutingGraphs
  import opened SearchTrees
  import opened Meetings
  import opened CHStorages
  import opened Hierarchies
  import opened Unpacking
  import opened UpwardGraphs
  import opened CHSearch
  import opened CHQueries
  import opened Orderings
  import opened PrepareContraction
  import AStar

  /** Every label was reached over an edge of the hierarchy. */
  ghost predicate ChainOk(ch: CHGraph, e: SPTEntry) {
    e.Root? || (Connects(ch, e.edge, e.parent.adjNode, e.adjNode) && ChainOk(ch, e.parent))
  }

  /** The base edges of the tree path of a label. */
  ghost function UnfoldedPath(ch: CHGraph, e: SPTEntry): seq<int>
    requires ChainOk(ch, e)
  {
    if e.Root? then [] else UnfoldedPath(ch, e.parent) + Unfolded(ch, e.edge, e.parent.adjNode, e.adjNode)
  }

  /** An arc of the upward graph is an edge with the weight of its direction. */
  lemma StepEdge(ch: CHGraph, reverse: bool, a: Arc)
    requires Hierarchical(ch) && a in Steps(UpAdjacency(ch), reverse)
    ensures Connects(ch, a.edge, a.from, a.to)
    ensures ch.Edge(a.edge).WeightFrom(if reverse then a.to else a.from) == Fin(a.weight)
  {
    UpStep(ch, reverse, a);
  }

  lemma {:induction false} EntryChain(ch: CHGraph, k: Task, e: SPTEntry, reverse: bool)
    requires Hierarchical(ch) && k.graph == Steps(UpAdjacency(ch), reverse) && k.EntryOk(e)
    ensures ChainOk(ch, e)
  {
    if e.Child? {
      EntryChain(ch, k, e.parent, reverse);
      StepEdge(ch, reverse, e.Step());
    }
  }

  /** A forward label is a base walk from the source, of its weight and its edges. */
  lemma {:induction false} ForwardWalk(ch: CHGraph, k: Task, e: SPTEntry) returns (p: Walk)
    requires Hierarchical(ch) && k.graph == Steps(UpAdjacency(ch), false) && k.EntryOk(e)
    ensures ChainOk(ch, e) && IsWalk(ChArcs(ch.base.edges, []), k.root, e.adjNode, p)
    ensures Length(p) == e.VisitedWeight() && EdgeIds(p) == UnfoldedPath(ch, e)
  {
    EntryChain(ch, k, e, false);
    p := [];
    if e.Child? {
      var q := ForwardWalk(ch, k, e.parent);
      StepEdge(ch, false, e.Step());
      var r := UnfoldedWalk(ch, e.edge, e.parent.adjNode, e.adjNode);
      WalkConcat(ChArcs(ch.base.edges, []), k.root, e.parent.adjNode, e.adjNode, q, r);
      EdgeIdsConcat(q, r);
      p := q + r;
    }
  }

  lemma ReversedTwiceIds(a: seq<int>)
    ensures ReversedIds(ReversedIds(a)) == a
  {
  }

  /** A backward label is a base walk to the target, with its edges in the opposite order. */
  lemma {:induction false} BackwardWalk(ch: CHGraph, k: Task, e: SPTEntry) returns (p: Walk)
    requires Hierarchical(ch) && k.graph == Steps(UpAdjacency(ch), true) && k.EntryOk(e)
    ensures ChainOk(ch, e) && IsWalk(ChArcs(ch.base.edges, []), e.adjNode, k.root, p)
    ensures Length(p) == e.VisitedWeight() && EdgeIds(p) == ReversedIds(UnfoldedPath(ch, e))
  {
    EntryChain(ch, k, e, true);
    p := [];
    if e.Child? {
      var q := BackwardWalk(ch, k, e.parent);
      StepEdge(ch, true, e.Step());
      var r := UnfoldedWalk(ch, e.edge, e.adjNode, e.parent.adjNode);
      WalkConcat(ChArcs(ch.base.edges, []), e.adjNode, e.parent.adjNode, k.root, r, q);
      EdgeIdsConcat(r, q);
      UnfoldedBackwards(ch, e.edge, e.parent.adjNode, e.adjNode);
      ReversedConcat(UnfoldedPath(ch, e.parent), Unfolded(ch, e.edge, e.parent.adjNode, e.adjNode));
      p := r + q;
    }
  }

  class NodeBasedCHBidirPathExtractor {
    const ch: CHGraph
    const shortcutUnpacker: ShortcutUnpacker

    constructor (ch: CHGraph)
      ensures this.ch == ch && shortcutUnpacker.ch == ch && fresh(shortcutUnpacker) && shortcutUnpacker.visited == []
    {
      this.ch := ch;
      shortcutUnpacker := new ShortcutUnpacker(ch);
    }

    /** Unpacks the edges from a label back to the root of its search. */
    method FollowParentsUntilRoot(e: SPTEntry) returns (root: SPTEntry)
      requires shortcutUnpacker.ch == ch && ChainOk(ch, e)
      modifies shortcutUnpacker
      ensures shortcutUnpacker.visited == old(shortcutUnpacker.visited) + ReversedIds(UnfoldedPath(ch, e))
      ensures root.Root? && (forall k: Task :: k.EntryOk(e) ==> root.adjNode == k.root) && (e.Root? ==> root == e)
    {
      root := e;
      while root.Child?
        invariant ChainOk(ch, root)
        invariant shortcutUnpacker.visited + ReversedIds(UnfoldedPath(ch, root)) == old(shortcutUnpacker.visited) + ReversedIds(UnfoldedPath(ch, e))
        invariant (forall k: Task :: k.EntryOk(e) ==> k.EntryOk(root)) && (e.Root? ==> root == e)
        decreases root
      {
        ghost var ids := Unfolded(ch, root.edge, root.parent.adjNode, root.adjNode);
        UnfoldedBackwards(ch, root.edge, root.parent.adjNode, root.adjNode);
        ReversedConcat(UnfoldedPath(ch, root.parent), ids);
        shortcutUnpacker.VisitOriginalEdges(root.edge, root.adjNode, true, root.parent.adjNode);
        root := root.parent;
      }
    }

    method Extract(fwdEntry: SPTEntry, bwdEntry: SPTEntry, weight: real) returns (path: Path)
      requires shortcutUnpacker.ch == ch && ChainOk(ch, fwdEntry) && ChainOk(ch, bwdEntry) && shortcutUnpacker.visited == []
      modifies shortcutUnpacker
      ensures path.Path? && path.weight == weight
      ensures path.edges == UnfoldedPath(ch, fwdEntry) + ReversedIds(UnfoldedPath(ch, bwdEntry))
      ensures forall k: Task :: IsEnd(k, fwdEntry) ==> path.fromNode == k.root
      ensures forall k: Task :: IsEnd(k, bwdEntry) ==> path.endNode == k.root
    {
      var fwdRoot := FollowParentsUntilRoot(fwdEntry);
      ReversedTwiceIds(UnfoldedPath(ch, fwdEntry));
      shortcutUnpacker.visited := ReversedIds(shortcutUnpacker.visited);
      var bwdRoot := FollowParentsUntilRoot(bwdEntry);
      path := Path(weight, fwdRoot.adjNode, bwdRoot.adjNode, shortcutUnpacker.visited);
    }
  }

  lemma ForwardEnd(ch: CHGraph, k: Task, e: SPTEntry) returns (p: Walk)
    requires Hierarchical(ch) && k.graph == Steps(UpAdjacency(ch), false) && IsEnd(k, e) && ChainOk(ch, e)
    ensures IsWalk(ChArcs(ch.base.edges, []), k.root, e.adjNode, p) && Length(p) == e.VisitedWeight() && EdgeIds(p) == UnfoldedPath(ch, e)
  {
    p := [];
    if k.EntryOk(e) { p := ForwardWalk(ch, k, e); }
  }

  lemma BackwardEnd(ch: CHGraph, k: Task, e: SPTEntry) returns (p: Walk)
    requires Hierarchical(ch) && k.graph == Steps(UpAdjacency(ch), true) && IsEnd(k, e) && ChainOk(ch, e)
    ensures IsWalk(ChArcs(ch.base.edges, []), e.adjNode, k.root, p) && Length(p) == e.VisitedWeight() && EdgeIds(p) == ReversedIds(UnfoldedPath(ch, e))
  {
    p := [];
    if k.EntryOk(e) { p := BackwardWalk(ch, k, e); }
  }

  /** The unpacked edges are a walk of the base graph with the weight of the answer. */
  lemma ExtractedWalk(ch: CHGraph, est: Estimates, k: Task, ko: Task, m: Meeting, path: Path)
    requires Hierarchical(ch) && Answers(ch, est, k, ko, m) && m.Meeting?
    requires k.graph == Steps(UpAdjacency(ch), false) && ko.graph == Steps(UpAdjacency(ch), true)
    requires ChainOk(ch, m.fwd) && ChainOk(ch, m.bwd)
    requires path == Path(m.total, k.root, ko.root, UnfoldedPath(ch, m.fwd) + ReversedIds(UnfoldedPath(ch, m.bwd)))
    ensures Describes(ChArcs(ch.base.edges, []), k.root, ko.root, path)
  {
    var base, v := ChArcs(ch.base.edges, []), m.fwd.adjNode;
    var p := ForwardEnd(ch, k, m.fwd);
    var q := BackwardEnd(ch, ko, m.bwd);
    WalkConcat(base, k.root, v, ko.root, p, q);
    EdgeIdsConcat(p, q);
  }

  method ExtractPath(request: Request, m: Meeting) returns (path: Path)
    requires request.Valid() && Answers(request.ch, request.estimates, request.Task(false), request.Task(true), m)
    ensures path.Weight() == m.Weight() && Describes(ChArcs(request.ch.base.edges, []), request.from, request.to, path)
  {
    match m
    case NoMeeting =>
      path := NotFound;
    case Meeting(weight, fwd, bwd) =>
      ghost var k, ko := request.Task(false), request.Task(true);
      if k.EntryOk(fwd) { EntryChain(request.ch, k, fwd, false); }
      if ko.EntryOk(bwd) { EntryChain(request.ch, ko, bwd, true); }
      var extractor := new NodeBasedCHBidirPathExtractor(request.ch);
      path := extractor.Extract(fwd, bwd, weight);
      ExtractedWalk(request.ch, request.estimates, k, ko, m, path);
  }

  /** A path of the base graph, found on the hierarchy: a shortest one, if the estimates are not
      positive at their ends. */
  method CalcPath(request: Request) returns (path: Path)
    requires request.Valid()
    ensures exists m :: request.Rules().Outcome(request.from, request.to, m) && path.Weight() == m.Weight()
    ensures path.NotFound? || request.estimates.Vanish(request.from, request.to)
            ==> IsDistance(ChArcs(request.ch.base.edges, []), request.from, request.to, path.Weight())
    ensures Describes(ChArcs(request.ch.base.edges, []), request.from, request.to, path)
  {
    var search := new BidirCHSearch(request);
    search.Run();
    request.OutcomeAnswers(search.best);
    path := ExtractPath(request, search.best);
  }

  /** Bidirectional Dijkstra on the hierarchy, with stall-on-demand. */
  method CalcPathDijkstra(ch: CHGraph, from: int, to: int) returns (path: Path)
    requires Hierarchical(ch) && 0 <= from < |ch.levels| && 0 <= to < |ch.levels|
    ensures IsDistance(ChArcs(ch.base.edges, []), from, to, path.Weight())
    ensures Describes(ChArcs(ch.base.edges, []), from, to, path)
  {
    BaseStepsNonNegative(ch);
    path := CalcPath(Request(ch, from, to, Estimates(_ => 0.0, _ => 0.0), true));
  }

  lemma BaseStepsNonNegative(ch: CHGraph)
    requires ch.Valid()
    ensures NonNegative(BaseSteps(ch, false)) && NonNegative(BaseSteps(ch, true))
  {
    BaseNonNegative(ch.base);
  }

  /** What a query with estimates may ask for. */
  ghost predicate Asks(ch: CHGraph, from: int, to: int, fwd: AStar.Approximator, rev: AStar.Approximator) {
    && Hierarchical(ch) && 0 <= from < |ch.levels| && 0 <= to < |ch.levels|
    && AStar.Consistent(BaseSteps(ch, false), fwd, to) && AStar.Consistent(BaseSteps(ch, true), rev, from)
  }

  function AStarRequest(ch: CHGraph, from: int, to: int, fwd: AStar.Approximator, rev: AStar.Approximator): Request {
    var p := AStar.BalancedPotential(fwd, rev, from, to);
    Request(ch, from, to, Estimates(p.forwardEstimate, p.backwardEstimate), false)
  }

  /** Balanced estimates fit the arcs of the hierarchy. The stop test of the query has no offset
      that would make up for estimates that overshoot at their own targets. */
  lemma BalancedFits(ch: CHGraph, from: int, to: int, fwd: AStar.Approximator, rev: AStar.Approximator)
    requires Asks(ch, from, to, fwd, rev)
    ensures AStarRequest(ch, from, to, fwd, rev).Valid()
    ensures AStarRequest(ch, from, to, fwd, rev).estimates.Vanish(from, to) <==> fwd.estimate(to, to) <= 0.0 && rev.estimate(from, from) <= 0.0
  {
    var p := AStar.BalancedPotential(fwd, rev, from, to);
    forall a | a in BaseSteps(ch, false) ensures p.forwardEstimate(a.from) <= a.weight + p.forwardEstimate(a.to) {
      FlipMember(BaseSteps(ch, false), Flip(a));
      assert Flip(Flip(a)) == a && Flip(a) in BaseSteps(ch, true);
    }
    forall a | a in BaseSteps(ch, true) ensures p.backwardEstimate(a.from) <= a.weight + p.backwardEstimate(a.to) {
      FlipMember(BaseSteps(ch, false), a);
    }
  }

  /** A run of the query may end with this best path. */
  ghost predicate Finds(ch: CHGraph, from: int, to: int, fwd: AStar.Approximator, rev: AStar.Approximator, m: Meeting) {
    AStarRequest(ch, from, to, fwd, rev).Rules().Outcome(from, to, m)
  }

  /** Whatever a run finds is exact if both estimates are at most zero at their own targets. */
  lemma FindsDistance(ch: CHGraph, from: int, to: int, fwd: AStar.Approximator, rev: AStar.Approximator, m: Meeting)
    requires Asks(ch, from, to, fwd, rev) && Finds(ch, from, to, fwd, rev, m)
    ensures m.NoMeeting? || (fwd.estimate(to, to) <= 0.0 && rev.estimate(from, from) <= 0.0)
            ==> IsDistance(ChArcs(ch.base.edges, []), from, to, m.Weight())
  {
    BalancedFits(ch, from, to, fwd, rev);
    AStarRequest(ch, from, to, fwd, rev).OutcomeAnswers(m);
  }

  /** Bidirectional A* on the hierarchy: what it returns is always a base walk of its weight, and a
      lightest one if both estimates are at most zero at their own targets. */
  method CalcPathAStar(ch: CHGraph, from: int, to: int, fwd: AStar.Approximator, rev: AStar.Approximator) returns (path: Path)
    requires Asks(ch, from, to, fwd, rev)
    ensures exists m :: Finds(ch, from, to, fwd, rev, m) && path.Weight() == m.Weight()
    ensures path.NotFound? || (fwd.estimate(to, to) <= 0.0 && rev.estimate(from, from) <= 0.0)
            ==> IsDistance(ChArcs(ch.base.edges, []), from, to, path.Weight())
    ensures Describes(ChArcs(ch.base.edges, []), from, to, path)
  {
    var b := new AStar.BalancedWeightApproximator(fwd, rev);
    b.SetFromTo(from, to);
    var p := b.ToPotential();
    BalancedFits(ch, from, to, fwd, rev);
    var request := Request(ch, from, to, Estimates(p.forwardEstimate, p.backwardEstimate), false);
    assert request == AStarRequest(ch, from, to, fwd, rev);
    path := CalcPath(request);
  }

  /** From a road network to a shortest path: whatever the priorities of the preparation are, and
      however they are brought up to date, contraction, query and unpacking together find one, or
      that there is none. One node may be left uncontracted. */
  method PrepareAndRoute(base: BaseGraph, rules: OrderRules, from: int, to: int) returns (path: Path)
    requires base.Valid() && 0 <= from < |base.adjacency| && 0 <= to < |base.adjacency| && rules.nodesToAvoidContract <= 2
    ensures IsDistance(ChArcs(base.edges, []), from, to, path.Weight())
    ensures Describes(ChArcs(base.edges, []), from, to, path)
  {
    var ch := Prepare(base, rules);
    path := CalcPathDijkstra(ch, from, to);
  }

  // ----- the same road network without a hierarchy

  /** The half edges of a node, as the plain searches read them. */
  function Ends(base: BaseGraph, node: int, ids: seq<int>): (r: seq<HalfEdge>)
    requires forall id :: id in ids ==> 0 <= id < |base.edges|
    ensures forall h :: h in r <==> exists id :: id in ids && h == base.edges[id].End(id, node)
  {
    if ids == [] then [] else
    assert ids[0] in ids && forall id :: id in ids[1..] ==> id in ids;
    [base.edges[ids[0]].End(ids[0], node)] + Ends(base, node, ids[1..])
  }

  function AdjacencyOf(base: BaseGraph): Adjacency
    requires base.Valid()
  {
    seq(|base.adjacency|, u requires 0 <= u < |base.adjacency| => Ends(base, u, base.adjacency[u]))
  }

  lemma AdjacencyEnds(base: BaseGraph, u: int, h: HalfEdge)
    requires base.Valid()
    ensures HasEnd(AdjacencyOf(base), u, h) <==>
            && 0 <= h.edge < |base.edges| && (base.edges[h.edge].nodeA == u || base.edges[h.edge].nodeB == u)
            && h == base.edges[h.edge].End(h.edge, u)
  {
    if 0 <= h.edge < |base.edges| && 0 <= u < |base.adjacency| {
      assert h.edge in base.adjacency[u] <==> (base.edges[h.edge].nodeA == u || base.edges[h.edge].nodeB == u);
    }
  }

  /** Both views have the same arcs, so a query of the hierarchy and a plain bidirectional search
      find the same distances. */
  lemma SameNetwork(base: BaseGraph)
    requires base.Valid()
    ensures ValidGraph(AdjacencyOf(base)) && Steps(AdjacencyOf(base), false) == ChArcs(base.edges, [])
  {
    var g := AdjacencyOf(base);
    forall u, h | HasEnd(g, u, h)
      ensures 0 <= h.edge < |base.edges| && (base.edges[h.edge].nodeA == u || base.edges[h.edge].nodeB == u)
      ensures h == base.edges[h.edge].End(h.edge, u) && HasEnd(g, h.adj, h.Opposite(u)) && 0 <= h.adj < |g|
    {
      AdjacencyEnds(base, u, h);
      AdjacencyEnds(base, h.adj, h.Opposite(u));
    }
    forall a ensures a in Steps(g, false) <==> a in ChArcs(base.edges, []) {
      if IsChArc(base.edges, [], a) {
        var h := base.edges[a.edge].End(a.edge, a.from);
        AdjacencyEnds(base, a.from, h);
        assert HasEnd(g, a.from, h);
      }
    }
  }
}
