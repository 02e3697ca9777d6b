/** The best meeting of two opposite searches, and how expanding a node of one of them
    updates it. Members take the search that advances first and its opposite second. */
module Meetings {
  import opened Walks
  import opened SearchTrees
  import opened RoutingGraphs

  /** The best path found so far: its weight and the two labels it is extracted from. */
  datatype Meeting = NoMeeting | Meeting(total: real, fwd: SPTEntry, bwd: SPTEntry) {
    function Weight(): Weight {
      if NoMeeting? then Inf else Fin(total)
    }

    function End(reverse: bool): SPTEntry
      requires Meeting?
    {
      if reverse then bwd else fwd
    }
  }

  ghost predicate LabelsWithin(t: SearchTree, g: Adjacency) {
    forall v :: v in t.best ==> 0 <= v < |g|
  }

  /** An end of the best path: a label of its search that no current label of the node is
      worse than. When source and target coincide, a root may stand in for the other one. */
  ghost predicate EndOk(k: Task, t: SearchTree, e: SPTEntry) {
    IsEnd(k, e) && NoWorse(t, e)
  }

  /** The best weight is that of the two labels kept for the path extraction, and no two
      labels that meet at a node are better together. */
  ghost predicate MeetingOk(k: Task, t: SearchTree, ko: Task, o: SearchTree, m: Meeting, reverse: bool) {
    && (m.Meeting? ==>
          && m.fwd.adjNode == m.bwd.adjNode && m.total == m.fwd.VisitedWeight() + m.bwd.VisitedWeight()
          && EndOk(k, t, m.End(reverse)) && EndOk(ko, o, m.End(!reverse)))
    && forall v {:trigger v in t.best, v in o.best} :: v in t.best && v in o.best ==>
         m.Weight().AtMost(Fin(t.best[v].VisitedWeight() + o.best[v].VisitedWeight()))
  }

  lemma MeetingOkOpposite(k: Task, t: SearchTree, ko: Task, o: SearchTree, m: Meeting, reverse: bool)
    requires MeetingOk(k, t, ko, o, m, reverse)
    ensures MeetingOk(ko, o, k, t, m, !reverse)
  {
  }

  /** The meeting before anything is expanded: source and target may be the same node. */
  function FirstMeeting(from: int, to: int, root: SPTEntry): Meeting {
    if from == to then Meeting(0.0, root, root) else NoMeeting
  }

  /** Every label got better or stayed. */
  ghost predicate OnlyBetter(t: SearchTree, t': SearchTree) {
    forall v :: v in t.best ==> v in t'.best && t'.best[v].VisitedWeight() <= t.best[v].VisitedWeight()
  }

  /** Lets a new label compete for the best path: it takes over from the label it
      superseded, and it is tried against the label of the opposite search. */
  function Compete(t: SearchTree, o: SearchTree, m: Meeting, entry: SPTEntry, reverse: bool): Meeting {
    var v := entry.adjNode;
    var m1 := if m.NoMeeting? || v !in t.best || t.best[v] != m.End(reverse) then m
              else if reverse then m.(bwd := entry) else m.(fwd := entry);
    if v in o.best && (m1.NoMeeting? || entry.VisitedWeight() + o.best[v].VisitedWeight() < m1.total) then
      var w := entry.VisitedWeight() + o.best[v].VisitedWeight();
      if reverse then Meeting(w, o.best[v], entry) else Meeting(w, entry, o.best[v])
    else
      m1
  }

  /** Although the replaced end leaves the recorded weight stale for a moment, the weight
      and the ends agree again in the end, and the new label's meeting is counted. */
  lemma CompeteOk(k: Task, t: SearchTree, ko: Task, o: SearchTree, m: Meeting, entry: SPTEntry, reverse: bool)
    requires MeetingOk(k, t, ko, o, m, reverse) && k.EntryOk(entry)
    requires var v := entry.adjNode;
             && (v in t.best ==> t.best[v].adjNode == v && entry.VisitedWeight() < t.best[v].VisitedWeight())
             && (v in o.best ==> o.best[v].adjNode == v && ko.EntryOk(o.best[v]))
    ensures MeetingOk(k, WithLabel(t, entry), ko, o, Compete(t, o, m, entry, reverse), reverse)
    ensures Compete(t, o, m, entry, reverse).Weight().AtMost(m.Weight())
  {
  }

  /** The edge over which a node was reached leads back to a lighter label. */
  lemma UTurnRelaxed(g: Adjacency, reverse: bool, k: Task, t: SearchTree, past: History, h: HalfEdge)
    requires InRange(g) && EdgeIdsUnique(g) && k.graph == Steps(g, reverse)
    requires Ok(k, t, past) && Popped(t, past)
    requires HasEnd(g, t.curr.adjNode, h) && h.edge == t.curr.EdgeId()
    ensures h.WeightOf(reverse).Fin? ==> Relaxed(t.best, StepArc(t.curr.adjNode, h, reverse))
  {
    var e := t.curr;
    var a := e.Step();
    assert IsStep(g, reverse, a);
    var i :| HasEnd(g, a.from, i) && i.WeightOf(reverse).Fin? && a == StepArc(a.from, i, reverse);
    assert h.adj == e.parent.adjNode && NoWorse(t, e.parent);
  }

  /** The search that advances, about to expand the node it popped last. */
  ghost predicate Expanding(g: Adjacency, reverse: bool, k: Task, t: SearchTree, past: History) {
    && Ok(k, t, past) && Popped(t, past) && LabelsWithin(t, g) && k.graph == Steps(g, reverse)
  }

  /** Whether the popped entry offers the other end of an edge a better label. */
  predicate Improves(t: SearchTree, h: HalfEdge, reverse: bool) {
    && h.edge != t.curr.EdgeId() && h.WeightOf(reverse).Fin?
    && (h.adj in t.best ==> h.WeightOf(reverse).value + t.curr.VisitedWeight() < t.best[h.adj].VisitedWeight())
  }

  function Candidate(t: SearchTree, h: HalfEdge, estimate: int -> real, reverse: bool): SPTEntry
    requires h.WeightOf(reverse).Fin?
  {
    var weight := h.WeightOf(reverse).value + t.curr.VisitedWeight();
    Child(h.edge, h.adj, weight + estimate(h.adj), weight, t.curr)
  }

  /** Relaxes one edge of the popped node. */
  function RelaxEdge(t: SearchTree, o: SearchTree, m: Meeting, h: HalfEdge, estimate: int -> real, reverse: bool): (SearchTree, Meeting) {
    if !Improves(t, h, reverse) then (t, m) else
    var entry := Candidate(t, h, estimate, reverse);
    (WithLabel(t, entry), Compete(t, o, m, entry, reverse))
  }

  /** An improved label keeps the invariants of its search and of the best path. */
  lemma ImproveOk(g: Adjacency, k: Task, t: SearchTree, past: History, ko: Task, o: SearchTree, m: Meeting, a: Arc, e: SPTEntry, reverse: bool)
    requires Expanding(g, reverse, k, t, past) && Labels(ko, o) && MeetingOk(k, t, ko, o, m, reverse)
    requires a in k.graph && a.from == t.curr.adjNode && 0 <= a.to < |g|
    requires a.to in t.best ==> t.curr.VisitedWeight() + a.weight < t.best[a.to].VisitedWeight()
    requires e == Offer(k, t, a)
    ensures Expanding(g, reverse, k, WithLabel(t, e), past) && Relaxed(WithLabel(t, e).best, a)
            && MeetingOk(k, WithLabel(t, e), ko, o, Compete(t, o, m, e, reverse), reverse)
            && Compete(t, o, m, e, reverse).Weight().AtMost(m.Weight())
            && OnlyBetter(t, WithLabel(t, e)) && WithLabel(t, e).curr == t.curr
  {
    WithLabelOk(k, t, past, a);
    ImprovementIsOpen(k, t, past, a);
    assert a.to in o.best ==> o.best[a.to].adjNode == a.to && ko.EntryOk(o.best[a.to]);
    CompeteOk(k, t, ko, o, m, e, reverse);
  }

  lemma RelaxEdgeOk(g: Adjacency, k: Task, t: SearchTree, past: History, ko: Task, o: SearchTree, m: Meeting, h: HalfEdge, reverse: bool)
    requires Expanding(g, reverse, k, t, past) && InRange(g) && HasEnd(g, t.curr.adjNode, h)
    requires h.edge == t.curr.EdgeId() && h.WeightOf(reverse).Fin? ==> Relaxed(t.best, StepArc(t.curr.adjNode, h, reverse))
    requires Labels(ko, o) && MeetingOk(k, t, ko, o, m, reverse)
    ensures var (t', m') := RelaxEdge(t, o, m, h, k.potential, reverse);
            && Expanding(g, reverse, k, t', past) && MeetingOk(k, t', ko, o, m', reverse) && m'.Weight().AtMost(m.Weight())
            && OnlyBetter(t, t') && t'.curr == t.curr
            && (h.WeightOf(reverse).Fin? ==> Relaxed(t'.best, StepArc(t'.curr.adjNode, h, reverse)))
  {
    if Improves(t, h, reverse) {
      var a := StepArc(t.curr.adjNode, h, reverse);
      assert IsStep(g, reverse, a);
      ImproveOk(g, k, t, past, ko, o, m, a, Candidate(t, h, k.potential, reverse), reverse);
    }
  }

  /** The first i edges of the popped node are relaxed. */
  ghost predicate Midway(g: Adjacency, reverse: bool, k: Task, t: SearchTree, past: History, ko: Task, o: SearchTree, m: Meeting, i: nat) {
    && Expanding(g, reverse, k, t, past) && MeetingOk(k, t, ko, o, m, reverse)
    && i <= |g[t.curr.adjNode]|
    && forall j :: 0 <= j < i && g[t.curr.adjNode][j].WeightOf(reverse).Fin? ==>
         Relaxed(t.best, StepArc(t.curr.adjNode, g[t.curr.adjNode][j], reverse))
  }

  lemma MidwayStep(g: Adjacency, reverse: bool, k: Task, t: SearchTree, past: History, ko: Task, o: SearchTree, m: Meeting, i: nat)
    requires ValidGraph(g) && Labels(ko, o)
    requires Midway(g, reverse, k, t, past, ko, o, m, i) && i < |g[t.curr.adjNode]|
    ensures var (t', m') := RelaxEdge(t, o, m, g[t.curr.adjNode][i], k.potential, reverse);
            && Midway(g, reverse, k, t', past, ko, o, m', i + 1) && t'.curr == t.curr && m'.Weight().AtMost(m.Weight())
  {
    var h := g[t.curr.adjNode][i];
    assert HasEnd(g, t.curr.adjNode, h);
    if h.edge == t.curr.EdgeId() {
      // the edge back to the parent, whose label is lighter already
      UTurnRelaxed(g, reverse, k, t, past, h);
    }
    RelaxEdgeOk(g, k, t, past, ko, o, m, h, reverse);
  }

  lemma MidwayEnd(g: Adjacency, reverse: bool, k: Task, t: SearchTree, past: History, ko: Task, o: SearchTree, m: Meeting)
    requires 0 <= t.curr.adjNode < |g| && Midway(g, reverse, k, t, past, ko, o, m, |g[t.curr.adjNode]|)
    ensures Ok(k, t, past.(expanded := past.expanded + {t.curr.adjNode})) && LabelsWithin(t, g) && MeetingOk(k, t, ko, o, m, reverse)
  {
    AllRelaxed(g, reverse, t.curr.adjNode, t);
    ExpandedOk(k, t, past, t.curr.adjNode);
  }

  /** Relaxes the edges one after the other. */
  function RelaxAll(t: SearchTree, o: SearchTree, m: Meeting, edges: seq<HalfEdge>, estimate: int -> real, reverse: bool): (SearchTree, Meeting) {
    if edges == [] then (t, m) else
    var (t1, m1) := RelaxAll(t, o, m, edges[..|edges| - 1], estimate, reverse);
    RelaxEdge(t1, o, m1, edges[|edges| - 1], estimate, reverse)
  }

  lemma RelaxNext(t: SearchTree, o: SearchTree, m: Meeting, edges: seq<HalfEdge>, h: HalfEdge, estimate: int -> real, reverse: bool)
    ensures var (t1, m1) := RelaxAll(t, o, m, edges, estimate, reverse);
            RelaxAll(t, o, m, edges + [h], estimate, reverse) == RelaxEdge(t1, o, m1, h, estimate, reverse)
  {
    assert (edges + [h])[..|edges|] == edges;
  }

  lemma {:induction false} RelaxAllOk(g: Adjacency, reverse: bool, k: Task, t: SearchTree, past: History, ko: Task, o: SearchTree, m: Meeting, i: nat)
    requires ValidGraph(g) && Labels(ko, o) && Midway(g, reverse, k, t, past, ko, o, m, 0) && i <= |g[t.curr.adjNode]|
    ensures var (t', m') := RelaxAll(t, o, m, g[t.curr.adjNode][..i], k.potential, reverse);
            Midway(g, reverse, k, t', past, ko, o, m', i) && t'.curr == t.curr && m'.Weight().AtMost(m.Weight())
  {
    var edges := g[t.curr.adjNode];
    if i > 0 {
      RelaxAllOk(g, reverse, k, t, past, ko, o, m, i - 1);
      var (t1, m1) := RelaxAll(t, o, m, edges[..i - 1], k.potential, reverse);
      MidwayStep(g, reverse, k, t1, past, ko, o, m1, i - 1);
      assert edges[..i] == edges[..i - 1] + [edges[i - 1]];
      RelaxNext(t, o, m, edges[..i - 1], edges[i - 1], k.potential, reverse);
    }
  }

  /** Relaxing every edge of the popped node expands it. */
  lemma FillOk(g: Adjacency, reverse: bool, k: Task, t: SearchTree, past: History, ko: Task, o: SearchTree, m: Meeting)
    requires ValidGraph(g) && Labels(ko, o) && Midway(g, reverse, k, t, past, ko, o, m, 0)
    ensures var (t', m') := RelaxAll(t, o, m, g[t.curr.adjNode], k.potential, reverse);
            && Ok(k, t', past.(expanded := past.expanded + {t.curr.adjNode})) && LabelsWithin(t', g)
            && MeetingOk(k, t', ko, o, m', reverse) && t'.curr == t.curr && m'.Weight().AtMost(m.Weight())
  {
    var edges := g[t.curr.adjNode];
    RelaxAllOk(g, reverse, k, t, past, ko, o, m, |edges|);
    assert edges[..|edges|] == edges;
    var (t', m') := RelaxAll(t, o, m, edges, k.potential, reverse);
    MidwayEnd(g, reverse, k, t', past, ko, o, m');
  }

  /** Relaxes every edge of the popped node. */
  method FillEdges(g: Adjacency, t: SearchTree, o: SearchTree, m: Meeting, estimate: int -> real, reverse: bool) returns (t': SearchTree, m': Meeting)
    requires 0 <= t.curr.adjNode < |g|
    ensures (t', m') == RelaxAll(t, o, m, g[t.curr.adjNode], estimate, reverse)
  {
    t', m' := t, m;
    var edges := g[t.curr.adjNode];
    for i := 0 to |edges|
      invariant (t', m') == RelaxAll(t, o, m, edges[..i], estimate, reverse)
    {
      RelaxNext(t, o, m, edges[..i], edges[i], estimate, reverse);
      assert edges[..i + 1] == edges[..i] + [edges[i]];
      var next := RelaxEdge(t', o, m', edges[i], estimate, reverse);
      t', m' := next.0, next.1;
    }
    assert edges[..|edges|] == edges;
  }

  lemma ExpandedOk(k: Task, t: SearchTree, past: History, u: int)
    requires Ok(k, t, past) && u in past.settled
    requires forall a :: a in k.graph && a.from == u ==> Relaxed(t.best, a)
    ensures Ok(k, t, past.(expanded := past.expanded + {u}))
  {
  }

  lemma AllRelaxed(g: Adjacency, reverse: bool, u: int, t: SearchTree)
    requires 0 <= u < |g|
    requires forall j :: 0 <= j < |g[u]| && g[u][j].WeightOf(reverse).Fin? ==> Relaxed(t.best, StepArc(u, g[u][j], reverse))
    ensures forall a :: a in Steps(g, reverse) && a.from == u ==> Relaxed(t.best, a)
  {
    forall a | a in Steps(g, reverse) && a.from == u ensures Relaxed(t.best, a) {
      assert IsStep(g, reverse, a);
      var h :| HasEnd(g, u, h) && h.WeightOf(reverse).Fin? && a == StepArc(u, h, reverse);
      var j :| 0 <= j < |g[u]| && g[u][j] == h;
    }
  }

  /** Two searches heading for each other: the one that advances next comes first. */
  ghost predicate Duel(g: Adjacency, k: Task, t: SearchTree, past: History, ko: Task, o: SearchTree, pastO: History, m: Meeting, reverse: bool) {
    && Ok(k, t, past) && Ok(ko, o, pastO) && MeetingOk(k, t, ko, o, m, reverse)
    && LabelsWithin(t, g) && LabelsWithin(o, g)
    && k.graph == Steps(g, reverse) && ko.graph == Steps(g, !reverse)
  }

  lemma DuelOpposite(g: Adjacency, k: Task, t: SearchTree, past: History, ko: Task, o: SearchTree, pastO: History, m: Meeting, reverse: bool)
    requires Duel(g, k, t, past, ko, o, pastO, m, reverse)
    ensures Duel(g, ko, o, pastO, k, t, past, m, !reverse)
  {
    MeetingOkOpposite(k, t, ko, o, m, reverse);
  }

  lemma DuelStart(g: Adjacency, k: Task, ko: Task, weight: real, weightO: real)
    requires InRange(g) && NonNegativeWeights(g) && k.Admissible() && ko.Admissible()
    requires weight == k.potential(k.root) && weightO == ko.potential(ko.root)
    requires k.graph == Steps(g, false) && ko.graph == Steps(g, true) && 0 <= k.root < |g| && 0 <= ko.root < |g|
    ensures var t, o := StartTree(k.root, weight), StartTree(ko.root, weightO);
            Duel(g, k, t, UNSTARTED, ko, o, UNSTARTED, FirstMeeting(k.root, ko.root, t.curr), false)
  {
    StartOk(k, weight);
    StartOk(ko, weightO);
  }

  /** Popping an entry changes no label, so the best path stands. */
  lemma MeetingAfterPop(k: Task, t: SearchTree, t': SearchTree, ko: Task, o: SearchTree, m: Meeting, reverse: bool)
    requires MeetingOk(k, t, ko, o, m, reverse) && t'.best == t.best
    ensures MeetingOk(k, t', ko, o, m, reverse)
  {
  }

  // ----- what a duel says about walks

  /** Follows a walk to the first node that the search has not passed: its label there is
      no worse than the walk, and unless it is the end, the search was not that far yet. */
  lemma Frontier(k: Task, t: SearchTree, past: History, v: int, p: Walk) returns (j: nat)
    requires Ok(k, t, past) && past.expanded == past.settled && IsWalk(k.graph, k.root, v, p)
    ensures j <= |p|
    ensures var u := NodeAt(k.root, p, j);
            && u in t.best && t.best[u].VisitedWeight() <= Length(p[..j])
            && (j == |p| || Length(p[..j]) + k.potential(u) >= t.curr.weight)
  {
    j := 0;
    assert p[..0] == [];
    while j < |p| && Length(p[..j]) + k.potential(NodeAt(k.root, p, j)) < t.curr.weight
      invariant j <= |p|
      invariant NodeAt(k.root, p, j) in t.best && t.best[NodeAt(k.root, p, j)].VisitedWeight() <= Length(p[..j])
    {
      var u := NodeAt(k.root, p, j);
      WalkSplit(k.graph, k.root, v, p, j);
      ClosedBelow(k, t, past, u, p[..j]);
      assert p[j] in k.graph && p[j].from == u by {
        if j > 0 { assert p[j - 1].to == p[j].from; }
      }
      assert Relaxed(t.best, p[j]);
      assert p[..j + 1][..j] == p[..j];
      j := j + 1;
    }
  }

  /** A label of each search at one node bounds the best weight. */
  lemma MeetingBound(k: Task, t: SearchTree, ko: Task, o: SearchTree, m: Meeting, reverse: bool, v: int, w: real, wO: real)
    requires MeetingOk(k, t, ko, o, m, reverse)
    requires v in t.best && t.best[v].VisitedWeight() <= w && v in o.best && o.best[v].VisitedWeight() <= wO
    ensures m.Meeting? && m.total <= w + wO
  {
    assert m.Weight().AtMost(Fin(t.best[v].VisitedWeight() + o.best[v].VisitedWeight()));
  }

  /** A search that has nothing left to expand has bounded the best weight by every walk. */
  lemma ExhaustedBound(k: Task, t: SearchTree, past: History, ko: Task, o: SearchTree, m: Meeting, reverse: bool, p: Walk)
    requires Ok(k, t, past) && past.expanded == past.settled == t.best.Keys
    requires Labels(ko, o) && MeetingOk(k, t, ko, o, m, reverse)
    requires IsWalk(k.graph, k.root, ko.root, p)
    ensures m.Meeting? && m.total <= Length(p)
  {
    ClosedBelow(k, t, past, ko.root, p);
    MeetingBound(k, t, ko, o, m, reverse, ko.root, Length(p), 0.0);
  }

  /** The stop test of the two searches: once their heap weights together reach the best
      weight plus the constant total of their estimates, no walk is lighter. */
  lemma StopBound(g: Adjacency, k: Task, t: SearchTree, past: History, ko: Task, o: SearchTree, pastO: History,
                  m: Meeting, reverse: bool, constant: real, p: Walk)
    requires Duel(g, k, t, past, ko, o, pastO, m, reverse) && Symmetric(g)
    requires past.expanded == past.settled && pastO.expanded == pastO.settled
    requires forall v :: k.potential(v) + ko.potential(v) == constant
    requires m.Meeting? && t.curr.weight + o.curr.weight >= m.total + constant
    requires IsWalk(k.graph, k.root, ko.root, p)
    ensures m.total <= Length(p)
  {
    var j := Frontier(k, t, past, ko.root, p);
    var u := NodeAt(k.root, p, j);
    WalkSplit(k.graph, k.root, ko.root, p, j);
    if j == |p| {
      assert p[..j] == p;
      MeetingBound(k, t, ko, o, m, reverse, u, Length(p), 0.0);
    } else if Length(p) < m.total {
      StepsReversed(g, reverse);
      WalkBackwards(k.graph, u, ko.root, p[j..]);
      assert k.potential(u) + ko.potential(u) == constant;
      ClosedBelow(ko, o, pastO, u, Backwards(p[j..]));
      MeetingBound(k, t, ko, o, m, reverse, u, Length(p[..j]), Length(p[j..]));
    }
  }

  /** The two labels of the best path join to a walk of exactly its weight. */
  lemma MeetingWalk(g: Adjacency, k: Task, t: SearchTree, ko: Task, o: SearchTree, m: Meeting)
    requires MeetingOk(k, t, ko, o, m, false) && m.Meeting? && Symmetric(g)
    requires k.graph == Steps(g, false) && ko.graph == Steps(g, true)
    ensures var p := m.fwd.Path() + Backwards(m.bwd.Path());
            IsWalk(k.graph, k.root, ko.root, p) && Length(p) == m.total
  {
    var x := m.fwd.adjNode;
    if k.EntryOk(m.fwd) { k.PathOk(m.fwd); }
    if ko.EntryOk(m.bwd) { ko.PathOk(m.bwd); }
    StepsReversed(g, true);
    WalkBackwards(ko.graph, ko.root, x, m.bwd.Path());
    WalkConcat(k.graph, k.root, x, ko.root, m.fwd.Path(), Backwards(m.bwd.Path()));
  }
}
