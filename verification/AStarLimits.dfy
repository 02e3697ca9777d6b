/** Exactly which estimates keep A* exact. Where they do not, one network shows it: a heavy edge
    between source and target beside a lighter way over three edges. */
module AStarLimits {
  import opened Walks
  import opened RoutingGraphs
  import opened SearchTrees
  import opened Meetings
  import opened SearchRuns
  import opened CHStorages
  import opened Contraction
  import opened Hierarchies
  import opened UpwardGraphs
  import opened CHSearch
  import CHQueries
  import CHRouting
  import opened AStar

  // ----- the network

  /** An edge open from a to b, or from b to a when flipped. */
  function OneWay(a: int, b: int, w: real, flip: bool): RoadEdge {
    RoadEdge(a, b, if flip then Inf else Fin(w), if flip then Fin(w) else Inf)
  }

  /** From 0 to 3 over one edge of weight w or over three of weight w / 4, and from 4 to 3; or all
      the other way round. */
  function Ladder(w: real, far: real, flip: bool): BaseGraph {
    BaseGraph([OneWay(0, 3, w, flip), OneWay(0, 1, w / 4.0, flip), OneWay(1, 2, w / 4.0, flip), OneWay(2, 3, w / 4.0, flip), OneWay(4, 3, far, flip)],
              [[0, 1], [1, 2], [2, 3], [0, 3, 4], [4]])
  }

  /** The nodes are contracted in their order, which needs no shortcut. */
  function LadderHierarchy(w: real, far: real, flip: bool): CHGraph {
    CHGraph(Ladder(w, far, flip), [0, 1, 2, 3, 4], [-1, -1, -1, -1, -1], [])
  }

  function Rung(edge: int, a: int, b: int, w: real, flip: bool): Arc {
    if flip then Arc(edge, b, a, w) else Arc(edge, a, b, w)
  }

  lemma LadderValid(w: real, far: real, flip: bool)
    requires w >= 0.0 && far >= 0.0
    ensures Ladder(w, far, flip).Valid() && LadderHierarchy(w, far, flip).Valid()
  {
  }

  lemma LadderArcs(w: real, far: real, flip: bool, a: Arc)
    ensures IsChArc(Ladder(w, far, flip).edges, [], a) <==>
            || a == Rung(0, 0, 3, w, flip) || a == Rung(1, 0, 1, w / 4.0, flip) || a == Rung(2, 1, 2, w / 4.0, flip)
            || a == Rung(3, 2, 3, w / 4.0, flip) || a == Rung(4, 4, 3, far, flip)
  {
  }

  /** The way over three edges is lighter. */
  lemma LighterWay(w: real, far: real, flip: bool)
    ensures var g := ChArcs(Ladder(w, far, flip).edges, []);
            Reaches(g, if flip then 3 else 0, if flip then 0 else 3, 0.75 * w)
  {
    var g := ChArcs(Ladder(w, far, flip).edges, []);
    var a, b, c := Rung(1, 0, 1, w / 4.0, flip), Rung(2, 1, 2, w / 4.0, flip), Rung(3, 2, 3, w / 4.0, flip);
    LadderArcs(w, far, flip, a);
    LadderArcs(w, far, flip, b);
    LadderArcs(w, far, flip, c);
    ReachesArc(g, a);
    ReachesArc(g, b);
    ReachesArc(g, c);
    if flip {
      ReachesJoin(g, 3, 2, 1, w / 4.0, w / 4.0);
      ReachesJoin(g, 3, 1, 0, w / 2.0, w / 4.0);
    } else {
      ReachesJoin(g, 0, 1, 2, w / 4.0, w / 4.0);
      ReachesJoin(g, 0, 2, 3, w / 2.0, w / 4.0);
    }
  }

  /** Where no arc up follows an arc down, every walk goes up first and then down. */
  lemma {:induction false} UpThenDown(base: Graph, up: Graph, down: Graph, s: int, t: int, p: Walk)
    requires (forall a :: a in base ==> a in up || a in down) && (forall a, b :: a in down && b in up ==> a.to != b.from)
    requires IsWalk(base, s, t, p)
    ensures exists x, q, r :: IsWalk(up, s, x, q) && IsWalk(down, x, t, r) && Length(q) + Length(r) == Length(p)
    decreases |p|
  {
    if p == [] {
      assert IsWalk(up, s, s, []) && IsWalk(down, s, t, []);
      return;
    }
    WalkUncons(base, s, t, p);
    var a := p[0];
    UpThenDown(base, up, down, a.to, t, p[1..]);
    var x, q, r :| IsWalk(up, a.to, x, q) && IsWalk(down, x, t, r) && Length(q) + Length(r) == Length(p[1..]);
    LengthOne(a);
    if a in up {
      WalkConcat(up, s, a.to, x, [a], q);
    } else {
      if q != [] {
        WalkUncons(up, a.to, x, q);
      }
      WalkConcat(down, s, a.to, t, [a], r);
      assert IsWalk(up, s, s, []);
    }
  }

  lemma SplitComplete(base: Graph, up: Graph, down: Graph)
    requires (forall a :: a in base ==> a in up || a in down) && (forall a, b :: a in down && b in up ==> a.to != b.from)
    ensures Complete(base, up, iset{}, down)
  {
    forall s, t, v | Reaches(base, s, t, v) ensures Routed(up, iset{}, down, s, t, v) {
      var p :| IsWalk(base, s, t, p) && Length(p) <= v;
      UpThenDown(base, up, down, s, t, p);
      var x, q, r :| IsWalk(up, s, x, q) && IsWalk(down, x, t, r) && Length(q) + Length(r) == Length(p);
      ReachesSelf(iset{}, x, 0.0);
      assert Via(up, iset{}, down, s, x, x, t, Length(q), 0.0, Length(r));
    }
  }

  /** Node 3 is where arcs up start, or where arcs down end, but not both. */
  lemma LadderLevels(w: real, far: real, flip: bool, a: Arc)
    requires IsChArc(Ladder(w, far, flip).edges, [], a)
    ensures var levels := LadderHierarchy(w, far, flip).levels;
            || (Above(levels, a.from, a.to) && !Above(levels, a.to, a.from) && (a.from == 3 <==> flip))
            || (Above(levels, a.to, a.from) && !Above(levels, a.from, a.to) && (a.to == 3 <==> !flip))
  {
    LadderArcs(w, far, flip, a);
  }

  lemma LadderHierarchical(w: real, far: real, flip: bool)
    requires w >= 0.0 && far >= 0.0
    ensures Hierarchical(LadderHierarchy(w, far, flip))
  {
    var ch := LadderHierarchy(w, far, flip);
    LadderValid(w, far, flip);
    var base, up, down := ChArcs(ch.base.edges, []), UpArcs(ch.base.edges, [], ch.levels), DownArcs(ch.base.edges, [], ch.levels);
    forall a | a in base ensures a in up || a in down {
      LadderLevels(w, far, flip, a);
    }
    forall a, b | a in down && b in up ensures a.to != b.from {
      LadderLevels(w, far, flip, a);
      LadderLevels(w, far, flip, b);
    }
    SplitComplete(base, up, down);
  }

  // ----- the two searches on it

  /** The end of an edge that a search in the given direction can leave over. */
  function Towards(edge: int, adj: int, w: real, reverse: bool): HalfEdge {
    if reverse then HalfEdge(edge, adj, Inf, Fin(w)) else HalfEdge(edge, adj, Fin(w), Inf)
  }

  ghost predicate Constant(estimate: int -> real, value: real) {
    forall v :: estimate(v) == value
  }

  lemma PushEdge(t: SearchTree, o: SearchTree, m: Meeting, h: HalfEdge, estimate: int -> real, reverse: bool)
    requires h.WeightOf(reverse).Fin? && h.adj !in t.best && h.edge != t.curr.EdgeId()
    ensures RelaxEdge(t, o, m, h, estimate, reverse).0 == WithLabel(t, Candidate(t, h, estimate, reverse))
    ensures h.adj !in o.best ==> RelaxEdge(t, o, m, h, estimate, reverse).1 == m
    ensures h.adj in o.best && m.NoMeeting? ==>
              var m' := RelaxEdge(t, o, m, h, estimate, reverse).1;
              m'.Meeting? && m'.total == Candidate(t, h, estimate, reverse).VisitedWeight() + o.best[h.adj].VisitedWeight()
    ensures h.adj in o.best && m.Meeting? && m.total <= Candidate(t, h, estimate, reverse).VisitedWeight() + o.best[h.adj].VisitedWeight()
            ==> RelaxEdge(t, o, m, h, estimate, reverse).1 == m
  {
  }

  lemma RelaxOne(t: SearchTree, o: SearchTree, m: Meeting, h: HalfEdge, estimate: int -> real, reverse: bool)
    ensures RelaxAll(t, o, m, [h], estimate, reverse) == RelaxEdge(t, o, m, h, estimate, reverse)
  {
    RelaxNext(t, o, m, [], h, estimate, reverse);
    assert [] + [h] == [h];
  }

  /** The search at node 0 after its first node, with both ways ahead. */
  function TreeAtZero(w: real, estimate: real): SearchTree {
    var root := Root(0, estimate);
    var heavy, light := Child(0, 3, w + estimate, w, root), Child(1, 1, w / 4.0 + estimate, w / 4.0, root);
    SearchTree(map[0 := root, 3 := heavy, 1 := light], {heavy, light}, {}, root)
  }

  lemma RelaxBothWays(t: SearchTree, o: SearchTree, w: real, weight: real, estimate: int -> real, reverse: bool)
    requires t == StartTree(0, weight).(queue := {}) && Constant(estimate, weight)
    requires 3 in o.best && o.best[3].VisitedWeight() == 0.0 && 1 !in o.best
    ensures var (t', m') := RelaxAll(t, o, NoMeeting, [Towards(0, 3, w, reverse), Towards(1, 1, w / 4.0, reverse)], estimate, reverse);
            t' == TreeAtZero(w, weight) && m'.Meeting? && m'.total == w
  {
    var h, l := Towards(0, 3, w, reverse), Towards(1, 1, w / 4.0, reverse);
    RelaxOne(t, o, NoMeeting, h, estimate, reverse);
    RelaxNext(t, o, NoMeeting, [h], l, estimate, reverse);
    assert [h] + [l] == [h, l];
    PushEdge(t, o, NoMeeting, h, estimate, reverse);
    var (t1, m1) := RelaxEdge(t, o, NoMeeting, h, estimate, reverse);
    PushEdge(t1, o, m1, l, estimate, reverse);
  }

  lemma FirstFromZero(rules: Rules, s: Search, w: real, estimate: real, reverse: bool) returns (s': Search)
    requires rules.offers(0, reverse) == [Towards(0, 3, w, reverse), Towards(1, 1, w / 4.0, reverse)]
    requires (forall t, r :: !rules.skips(t, r)) && Constant(rules.Estimate(reverse), estimate)
    requires s.Tree(reverse) == StartTree(0, estimate) && s.best.NoMeeting?
    requires 3 in s.Tree(!reverse).best && s.Tree(!reverse).best[3].VisitedWeight() == 0.0 && 1 !in s.Tree(!reverse).best
    ensures rules.Advances(s, reverse, s') && s' == s.With(reverse, TreeAtZero(w, estimate), s'.best, false)
    ensures s'.best.Meeting? && s'.best.total == w
  {
    var t := s.Tree(reverse).(queue := {});
    RelaxBothWays(t, s.Tree(!reverse), w, estimate, rules.Estimate(reverse), reverse);
    s' := rules.Expanded(s, reverse, t);
    assert rules.AdvancesOver(s, reverse, t, s');
  }

  /** The search at node 3 after its first node. */
  function TreeAtThree(far: real, estimate: real): SearchTree {
    var root := Root(3, estimate);
    var next := Child(4, 4, far + estimate, far, root);
    SearchTree(map[3 := root, 4 := next], {next}, {}, root)
  }

  lemma FirstFromThree(rules: Rules, s: Search, far: real, estimate: real, reverse: bool) returns (s': Search)
    requires rules.offers(3, reverse) == [Towards(4, 4, far, reverse)]
    requires (forall t, r :: !rules.skips(t, r)) && Constant(rules.Estimate(reverse), estimate)
    requires s.Tree(reverse) == StartTree(3, estimate) && 4 !in s.Tree(!reverse).best
    ensures rules.Advances(s, reverse, s') && s' == s.With(reverse, TreeAtThree(far, estimate), s.best, false)
  {
    var t, o, h := s.Tree(reverse).(queue := {}), s.Tree(!reverse), Towards(4, 4, far, reverse);
    RelaxOne(t, o, s.best, h, rules.Estimate(reverse), reverse);
    PushEdge(t, o, s.best, h, rules.Estimate(reverse), reverse);
    s' := rules.Expanded(s, reverse, t);
    assert rules.AdvancesOver(s, reverse, t, s');
  }

  lemma SecondFromZero(rules: Rules, s: Search, w: real, estimate: real, reverse: bool) returns (s': Search)
    requires w > 0.0 && rules.offers(1, reverse) == [Towards(2, 2, w / 4.0, reverse)]
    requires (forall t, r :: !rules.skips(t, r)) && Constant(rules.Estimate(reverse), estimate)
    requires s.Tree(reverse) == TreeAtZero(w, estimate) && 2 !in s.Tree(!reverse).best
    ensures rules.Advances(s, reverse, s') && s' == s.With(reverse, s'.Tree(reverse), s.best, false)
    ensures s'.Tree(reverse).curr.weight == w / 4.0 + estimate
  {
    var before, o, h := s.Tree(reverse), s.Tree(!reverse), Towards(2, 2, w / 4.0, reverse);
    var t := before.(queue := {before.best[3]}, curr := before.best[1]);
    RelaxOne(t, o, s.best, h, rules.Estimate(reverse), reverse);
    PushEdge(t, o, s.best, h, rules.Estimate(reverse), reverse);
    s' := rules.Expanded(s, reverse, t);
    assert rules.AdvancesOver(s, reverse, t, s');
  }

  lemma SecondFromThree(rules: Rules, s: Search, far: real, estimate: real, reverse: bool) returns (s': Search)
    requires rules.offers(4, reverse) == [] && forall t, r :: !rules.skips(t, r)
    requires s.Tree(reverse) == TreeAtThree(far, estimate)
    ensures rules.Advances(s, reverse, s') && s' == s.With(reverse, s'.Tree(reverse), s.best, false)
    ensures s'.Tree(reverse).curr.weight == far + estimate
  {
    var before := s.Tree(reverse);
    var t := before.(queue := {}, curr := before.best[4]);
    s' := rules.Expanded(s, reverse, t);
    assert rules.AdvancesOver(s, reverse, t, s');
  }

  /** A search of the ladder by its levels: what each node offers, and the constant estimates. */
  ghost predicate OnLadder(rules: Rules, w: real, far: real, atZero: real, atThree: real, flip: bool) {
    && rules.offers(0, flip) == [Towards(0, 3, w, flip), Towards(1, 1, w / 4.0, flip)]
    && rules.offers(1, flip) == [Towards(2, 2, w / 4.0, flip)]
    && rules.offers(3, !flip) == [Towards(4, 4, far, !flip)]
    && rules.offers(4, !flip) == []
    && (forall t, r :: !rules.skips(t, r))
    && Constant(rules.Estimate(flip), atZero) && Constant(rules.Estimate(!flip), atThree)
  }

  lemma FirstRound(rules: Rules, w: real, far: real, atZero: real, atThree: real, flip: bool) returns (s: Search)
    requires OnLadder(rules, w, far, atZero, atThree, flip)
    ensures rules.IsRound(rules.Start(if flip then 3 else 0, if flip then 0 else 3), s)
    ensures s.Tree(flip) == TreeAtZero(w, atZero) && s.Tree(!flip) == TreeAtThree(far, atThree)
    ensures s.best.Meeting? && s.best.total == w && !s.finishedFrom && !s.finishedTo
  {
    var start, mid := rules.Start(if flip then 3 else 0, if flip then 0 else 3), rules.Start(0, 3);
    if flip {
      mid := FirstFromThree(rules, start, far, atThree, false);
      s := FirstFromZero(rules, mid, w, atZero, true);
    } else {
      mid := FirstFromZero(rules, start, w, atZero, false);
      s := FirstFromThree(rules, mid, far, atThree, true);
    }
    assert rules.Round(start, mid, s);
  }

  lemma SecondRound(rules: Rules, s0: Search, w: real, far: real, atZero: real, atThree: real, flip: bool) returns (s: Search)
    requires OnLadder(rules, w, far, atZero, atThree, flip) && w > 0.0
    requires s0.Tree(flip) == TreeAtZero(w, atZero) && s0.Tree(!flip) == TreeAtThree(far, atThree)
    requires !s0.finishedFrom && !s0.finishedTo
    ensures rules.IsRound(s0, s) && s.best == s0.best
    ensures s.Tree(flip).curr.weight == w / 4.0 + atZero && s.Tree(!flip).curr.weight == far + atThree
  {
    var mid := s0;
    if flip {
      mid := SecondFromThree(rules, s0, far, atThree, false);
      s := SecondFromZero(rules, mid, w, atZero, true);
    } else {
      mid := SecondFromZero(rules, s0, w, atZero, false);
      s := SecondFromThree(rules, mid, far, atThree, true);
    }
    assert rules.Round(s0, mid, s);
  }

  lemma AfterOneRound(rules: Rules, from: int, to: int, s: Search)
    requires rules.IsRound(rules.Start(from, to), s)
    ensures rules.IsRun(from, to, [rules.Start(from, to), s]) && (rules.stops(s) ==> rules.Outcome(from, to, s.best))
  {
    var run := [rules.Start(from, to)];
    rules.OneMoreRound(from, to, run, s);
    assert run + [s] == [rules.Start(from, to), s];
    assert [rules.Start(from, to), s][1] == s;
  }

  lemma AfterTwoRounds(rules: Rules, from: int, to: int, s: Search, s2: Search)
    requires rules.IsRound(rules.Start(from, to), s) && !rules.stops(s) && rules.IsRound(s, s2) && rules.stops(s2)
    ensures rules.Outcome(from, to, s2.best)
  {
    AfterOneRound(rules, from, to, s);
    var run := [rules.Start(from, to), s];
    rules.OneMoreRound(from, to, run, s2);
    assert (run + [s2])[2] == s2;
  }

  /** With an estimate of at least w at node 0 the query stops before it has found the lighter way. */
  lemma StopsAtHeavyEdge(rules: Rules, w: real, far: real, atZero: real, atThree: real, flip: bool) returns (m: Meeting)
    requires OnLadder(rules, w, far, atZero, atThree, flip) && (forall s :: rules.stops(s) <==> CHQueries.Stops(s))
    requires w > 0.0 && atZero >= w && far + atThree >= w
    ensures rules.Outcome(if flip then 3 else 0, if flip then 0 else 3, m) && m.Meeting? && m.total == w
  {
    var from, to := if flip then 3 else 0, if flip then 0 else 3;
    var s := FirstRound(rules, w, far, atZero, atThree, flip);
    m := s.best;
    AfterOneRound(rules, from, to, s);
    if !rules.stops(s) {
      var s2 := SecondRound(rules, s, w, far, atZero, atThree, flip);
      AfterTwoRounds(rules, from, to, s, s2);
    }
  }

  // ----- which estimates keep the query of a hierarchy exact

  function ConstantApproximator(value: real, slack: real): Approximator {
    Approximator((v, goal) => value, slack)
  }

  lemma UpwardsOfOne(ch: CHGraph, u: int, h: HalfEdge)
    ensures Upwards(ch, u, [h]) == if Accepts(ch, u, h.adj) then [h] else []
  {
    assert [] + [h] == [h];
    UpwardsNext(ch, u, [], h);
  }

  lemma UpwardsOfTwo(ch: CHGraph, u: int, g: HalfEdge, h: HalfEdge)
    ensures Upwards(ch, u, [g, h]) == (if Accepts(ch, u, g.adj) then [g] else []) + (if Accepts(ch, u, h.adj) then [h] else [])
  {
    assert [g] + [h] == [g, h];
    UpwardsOfOne(ch, u, g);
    UpwardsNext(ch, u, [g], h);
  }

  lemma OffersAtZero(w: real, far: real, flip: bool)
    requires w > 0.0 && far >= 0.0
    ensures Offered(LadderHierarchy(w, far, flip), 0, flip) == [Towards(0, 3, w, flip), Towards(1, 1, w / 4.0, flip)]
  {
    var ch := LadderHierarchy(w, far, flip);
    LadderValid(w, far, flip);
    var h, l := Towards(0, 3, w, flip), Towards(1, 1, w / 4.0, flip);
    assert ch.BaseRun(0, 1, flip) == [l] by {
      assert ch.BaseRun(0, 2, flip) == [];
    }
    assert ch.Listing(0, flip) == [h, l];
    UpwardsOfTwo(ch, 0, h, l);
  }

  lemma OffersAtOne(w: real, far: real, flip: bool)
    requires w > 0.0 && far >= 0.0
    ensures Offered(LadderHierarchy(w, far, flip), 1, flip) == [Towards(2, 2, w / 4.0, flip)]
  {
    var ch := LadderHierarchy(w, far, flip);
    LadderValid(w, far, flip);
    assert ch.BaseRun(1, 1, flip) == [Towards(2, 2, w / 4.0, flip)] by {
      assert ch.BaseRun(1, 2, flip) == [];
    }
    assert ch.Listing(1, flip) == [Towards(2, 2, w / 4.0, flip)];
    UpwardsOfOne(ch, 1, Towards(2, 2, w / 4.0, flip));
  }

  lemma OffersAtThree(w: real, far: real, flip: bool)
    requires w > 0.0 && far >= 0.0
    ensures Offered(LadderHierarchy(w, far, flip), 3, !flip) == [Towards(4, 4, far, !flip)]
  {
    var ch := LadderHierarchy(w, far, flip);
    LadderValid(w, far, flip);
    var a, b, c := Towards(0, 0, w, !flip), Towards(3, 2, w / 4.0, !flip), Towards(4, 4, far, !flip);
    assert ch.BaseRun(3, 2, !flip) == [c] by {
      assert ch.BaseRun(3, 3, !flip) == [];
    }
    assert ch.BaseRun(3, 1, !flip) == [b, c];
    assert ch.BaseRun(3, 0, !flip) == [a, b, c];
    assert ch.Listing(3, !flip) == [a, b] + [c];
    UpwardsOfTwo(ch, 3, a, b);
    UpwardsNext(ch, 3, [a, b], c);
  }

  lemma OffersAtFour(w: real, far: real, flip: bool)
    requires w > 0.0 && far >= 0.0
    ensures Offered(LadderHierarchy(w, far, flip), 4, !flip) == []
  {
    var ch := LadderHierarchy(w, far, flip);
    LadderValid(w, far, flip);
    assert ch.BaseRun(4, 1, !flip) == [];
    assert ch.Listing(4, !flip) == [];
  }

  lemma QueryAsks(w: real, far: real, flip: bool, from: int, to: int, f: real, r: real)
    requires w >= 0.0 && far >= 0.0 && 0 <= from < 5 && 0 <= to < 5
    ensures CHRouting.Asks(LadderHierarchy(w, far, flip), from, to, ConstantApproximator(f, 0.0), ConstantApproximator(r, 0.0))
  {
    LadderHierarchical(w, far, flip);
    BaseNonNegative(Ladder(w, far, flip));
  }

  lemma BalancedConstants(f: real, r: real, slack: real, from: int, to: int)
    ensures var p := BalancedPotential(ConstantApproximator(f, slack), ConstantApproximator(r, 0.0), from, to);
            Constant(p.forwardEstimate, f / 2.0) && Constant(p.backwardEstimate, r / 2.0) && p.stopOffset == r / 2.0 + slack
  {
  }

  lemma QueryRules(q: CHQueries.Request)
    requires !q.stallOnDemand
    ensures forall u, reverse :: q.Rules().offers(u, reverse) == Offered(q.ch, u, reverse)
    ensures (forall t, reverse :: !q.Rules().skips(t, reverse)) && (forall s :: q.Rules().stops(s) <==> CHQueries.Stops(s))
    ensures q.Rules().forward == q.estimates.forward && q.Rules().backward == q.estimates.backward
  {
  }

  lemma OffersOnLadder(rules: Rules, ch: CHGraph, w: real, far: real, atZero: real, atThree: real, flip: bool)
    requires w > 0.0 && far >= 0.0 && ch == LadderHierarchy(w, far, flip)
    requires forall u, reverse :: rules.offers(u, reverse) == Offered(ch, u, reverse)
    requires forall t, reverse :: !rules.skips(t, reverse)
    requires Constant(rules.Estimate(flip), atZero) && Constant(rules.Estimate(!flip), atThree)
    ensures OnLadder(rules, w, far, atZero, atThree, flip)
  {
    OffersAtZero(w, far, flip);
    OffersAtOne(w, far, flip);
    OffersAtThree(w, far, flip);
    OffersAtFour(w, far, flip);
  }

  lemma QueryOnLadder(ch: CHGraph, w: real, far: real, flip: bool, from: int, to: int, fwd: Approximator, rev: Approximator, f: real, r: real)
    requires w > 0.0 && far >= 0.0 && ch == LadderHierarchy(w, far, flip)
    requires fwd == ConstantApproximator(f, 0.0) && rev == ConstantApproximator(r, 0.0)
    ensures var rules := CHRouting.AStarRequest(ch, from, to, fwd, rev).Rules();
            && OnLadder(rules, w, far, if flip then r / 2.0 else f / 2.0, if flip then f / 2.0 else r / 2.0, flip)
            && forall s :: rules.stops(s) <==> CHQueries.Stops(s)
  {
    var q := CHRouting.AStarRequest(ch, from, to, fwd, rev);
    QueryRules(q);
    BalancedConstants(f, r, 0.0, from, to);
    OffersOnLadder(q.Rules(), ch, w, far, if flip then r / 2.0 else f / 2.0, if flip then f / 2.0 else r / 2.0, flip);
  }

  lemma HeavyIsNoDistance(w: real, far: real, flip: bool)
    requires w > 0.0
    ensures !IsDistance(ChArcs(Ladder(w, far, flip).edges, []), if flip then 3 else 0, if flip then 0 else 3, Fin(w))
  {
    LighterWay(w, far, flip);
  }

  /** On the ladder the query returns the heavy edge if the estimate at node 0 reaches its weight. */
  lemma QueryFindsHeavyEdge(ch: CHGraph, w: real, far: real, flip: bool, from: int, to: int, fwd: Approximator, rev: Approximator, f: real, r: real)
    returns (m: Meeting)
    requires w > 0.0 && far >= 0.0 && ch == LadderHierarchy(w, far, flip)
    requires fwd == ConstantApproximator(f, 0.0) && rev == ConstantApproximator(r, 0.0)
    requires from == (if flip then 3 else 0) && to == (if flip then 0 else 3)
    requires (if flip then r else f) >= 2.0 * w && far + (if flip then f else r) / 2.0 >= w
    ensures CHRouting.Finds(ch, from, to, fwd, rev, m) && m.Meeting? && m.total == w
  {
    QueryOnLadder(ch, w, far, flip, from, to, fwd, rev, f, r);
    var atZero, atThree := if flip then r / 2.0 else f / 2.0, if flip then f / 2.0 else r / 2.0;
    m := StopsAtHeavyEdge(CHRouting.AStarRequest(ch, from, to, fwd, rev).Rules(), w, far, atZero, atThree, flip);
  }

  /** A query of the ladder whose estimate at node 0 is positive misses the lighter way. */
  lemma QueryMissesWay(estimate: real, other: real, flip: bool) returns (ch: CHGraph, from: int, to: int, fwd: Approximator, rev: Approximator, m: Meeting)
    requires estimate > 0.0
    ensures CHRouting.Asks(ch, from, to, fwd, rev) && CHRouting.Finds(ch, from, to, fwd, rev, m)
    ensures fwd.estimate(to, to) == (if flip then other else estimate) && rev.estimate(from, from) == (if flip then estimate else other)
    ensures !IsDistance(ChArcs(ch.base.edges, []), from, to, m.Weight())
  {
    var w := estimate / 2.0;
    var far := w + if other < 0.0 then -other / 2.0 else 0.0;
    var f, r := if flip then other else estimate, if flip then estimate else other;
    from, to := if flip then 3 else 0, if flip then 0 else 3;
    ch, fwd, rev := LadderHierarchy(w, far, flip), ConstantApproximator(f, 0.0), ConstantApproximator(r, 0.0);
    QueryAsks(w, far, flip, from, to, f, r);
    m := QueryFindsHeavyEdge(ch, w, far, flip, from, to, fwd, rev, f, r);
    HeavyIsNoDistance(w, far, flip);
  }

  /** The query is exact on every hierarchy with all consistent estimates of these values. */
  ghost predicate QueryExact(atTarget: real, atSource: real) {
    forall ch, from, to, fwd, rev, m {:trigger CHRouting.Finds(ch, from, to, fwd, rev, m)} ::
      && CHRouting.Asks(ch, from, to, fwd, rev) && fwd.estimate(to, to) == atTarget && rev.estimate(from, from) == atSource
      && CHRouting.Finds(ch, from, to, fwd, rev, m)
      ==> IsDistance(ChArcs(ch.base.edges, []), from, to, m.Weight())
  }

  /** A* on hierarchies is exact for estimates of these values at their own targets if and only if
      neither is positive. */
  lemma QueryExactIff(atTarget: real, atSource: real)
    ensures QueryExact(atTarget, atSource) <==> atTarget <= 0.0 && atSource <= 0.0
  {
    if atTarget > 0.0 {
      var ch, from, to, fwd, rev, m := QueryMissesWay(atTarget, atSource, false);
    } else if atSource > 0.0 {
      var ch, from, to, fwd, rev, m := QueryMissesWay(atSource, atTarget, true);
    } else {
      forall ch, from, to, fwd, rev, m | CHRouting.Asks(ch, from, to, fwd, rev) && fwd.estimate(to, to) == atTarget && rev.estimate(from, from) == atSource
                                         && CHRouting.Finds(ch, from, to, fwd, rev, m)
        ensures IsDistance(ChArcs(ch.base.edges, []), from, to, m.Weight())
      {
        CHRouting.FindsDistance(ch, from, to, fwd, rev, m);
      }
    }
  }

  // ----- which estimates keep the plain search exact

  lemma PlainEnds(w: real, far: real)
    requires w > 0.0 && far >= 0.0
    ensures Ladder(w, far, false).Valid()
    ensures var g := CHRouting.AdjacencyOf(Ladder(w, far, false));
            && |g| == 5
            && g[0] == [Towards(0, 3, w, false), Towards(1, 1, w / 4.0, false)]
            && g[3] == [Towards(0, 0, w, true), Towards(3, 2, w / 4.0, true), Towards(4, 4, far, true)]
  {
    LadderValid(w, far, false);
    var base := Ladder(w, far, false);
    assert CHRouting.Ends(base, 0, [1]) == [Towards(1, 1, w / 4.0, false)];
    assert CHRouting.Ends(base, 3, [4]) == [Towards(4, 4, far, true)];
    assert CHRouting.Ends(base, 3, [3, 4]) == [Towards(3, 2, w / 4.0, true), Towards(4, 4, far, true)];
  }

  /** Relaxing the edges at node 3 finds nothing lighter than the heavy edge. */
  lemma NothingLighterAtThree(t: SearchTree, o: SearchTree, m: Meeting, w: real, far: real, estimate: int -> real)
    requires t.best.Keys == {3} && t.curr.Root? && t.curr.adjNode == 3
    requires o.best.Keys == {0, 1, 3} && o.best[0].Root? && m.Meeting? && m.total == w
    ensures RelaxAll(t, o, m, [Towards(0, 0, w, true), Towards(3, 2, w / 4.0, true), Towards(4, 4, far, true)], estimate, true).1 == m
  {
    var a, b, c := Towards(0, 0, w, true), Towards(3, 2, w / 4.0, true), Towards(4, 4, far, true);
    RelaxOne(t, o, m, a, estimate, true);
    RelaxNext(t, o, m, [a], b, estimate, true);
    RelaxNext(t, o, m, [a] + [b], c, estimate, true);
    assert [a] + [b] + [c] == [a, b, c];
    PushEdge(t, o, m, a, estimate, true);
    var t1 := RelaxEdge(t, o, m, a, estimate, true).0;
    PushEdge(t1, o, m, b, estimate, true);
    var t2 := RelaxEdge(t1, o, m, b, estimate, true).0;
    PushEdge(t2, o, m, c, estimate, true);
  }

  lemma PlainRound(rules: Rules, w: real, far: real, estimate: real) returns (s: Search)
    requires rules.offers(0, false) == [Towards(0, 3, w, false), Towards(1, 1, w / 4.0, false)]
    requires rules.offers(3, true) == [Towards(0, 0, w, true), Towards(3, 2, w / 4.0, true), Towards(4, 4, far, true)]
    requires (forall t, r :: !rules.skips(t, r)) && Constant(rules.forward, estimate) && Constant(rules.backward, 0.0)
    ensures rules.IsRound(rules.Start(0, 3), s) && s.best.Meeting? && s.best.total == w
    ensures s.fwd.curr.weight == estimate && s.bwd.curr.weight == 0.0
  {
    var start := rules.Start(0, 3);
    var mid := FirstFromZero(rules, start, w, estimate, false);
    var t := mid.bwd.(queue := {});
    s := rules.Expanded(mid, true, t);
    assert rules.AdvancesOver(mid, true, t, s);
    NothingLighterAtThree(t, mid.fwd, mid.best, w, far, rules.backward);
    RelaxAllCurr(t, mid.fwd, mid.best, rules.offers(3, true), rules.backward, true);
    assert rules.Round(start, mid, s);
  }

  /** On the ladder the search stops at the heavy edge. */
  lemma SearchMissesWay(estimate: real, slack: real) returns (graph: Adjacency, from: int, to: int, fwd: Approximator, rev: Approximator, m: Meeting)
    requires estimate > 2.0 * slack
    ensures Asks(graph, from, to, fwd, rev) && Finds(graph, from, to, fwd, rev, m)
    ensures fwd.estimate(to, to) == estimate && fwd.slack == slack
    ensures !IsDistance(Steps(graph, false), from, to, m.Weight())
  {
    var w := estimate / 2.0 - slack;
    from, to, fwd, rev := 0, 3, ConstantApproximator(estimate, slack), ConstantApproximator(0.0, 0.0);
    graph := CHRouting.AdjacencyOf(Ladder(w, 0.0, false));
    PlainEnds(w, 0.0);
    CHRouting.SameNetwork(Ladder(w, 0.0, false));
    BalancedConstants(estimate, 0.0, slack, from, to);
    var rules := AStarRequest(graph, from, to, fwd, rev).Rules();
    var s := PlainRound(rules, w, 0.0, estimate / 2.0);
    AfterOneRound(rules, from, to, s);
    m := s.best;
    HeavyIsNoDistance(w, 0.0, false);
    StepsNonNegative(graph, false);
    StepsNonNegative(graph, true);
  }

  /** The search is exact on every network with all consistent estimates of this value and slack. */
  ghost predicate SearchExact(atTarget: real, slack: real) {
    forall graph, from, to, fwd, rev, m {:trigger Finds(graph, from, to, fwd, rev, m)} ::
      && Asks(graph, from, to, fwd, rev) && fwd.estimate(to, to) == atTarget && fwd.slack == slack
      && Finds(graph, from, to, fwd, rev, m)
      ==> IsDistance(Steps(graph, false), from, to, m.Weight())
  }

  /** A* is exact for forward estimates of this value at the target and this slack if and only if
      the value is at most twice the slack. */
  lemma SearchExactIff(atTarget: real, slack: real)
    ensures SearchExact(atTarget, slack) <==> atTarget <= 2.0 * slack
  {
    if atTarget > 2.0 * slack {
      var graph, from, to, fwd, rev, m := SearchMissesWay(atTarget, slack);
    } else {
      forall graph, from, to, fwd, rev, m | Asks(graph, from, to, fwd, rev) && fwd.estimate(to, to) == atTarget && fwd.slack == slack
                                            && Finds(graph, from, to, fwd, rev, m)
        ensures IsDistance(Steps(graph, false), from, to, m.Weight())
      {
        FindsDistance(graph, from, to, fwd, rev, m);
      }
    }
  }
}
