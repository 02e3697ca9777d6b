/** Why a preparation may leave at most one node: the shortcuts between nodes that are left are
    never stored, so a query cannot get past the nodes contracted between them. */
module PartialHierarchies {
  import opened Counting
  import opened Walks
  import opened RoutingGraphs
  import opened SearchTrees
  import opened Meetings
  import opened SearchRuns
  import opened CHStorages
  import opened Hierarchies
  import opened Orderings
  import opened PrepareContraction
  import opened UpwardGraphs
  import opened CHSearch
  import opened CHQueries

  function Next(n: nat, u: int): int {
    if u == n - 1 then 0 else u + 1
  }

  function Prev(n: nat, u: int): int {
    if u == 0 then n - 1 else u - 1
  }

  /** A roundabout: n nodes, and a one-way edge from each to the next. */
  function Ring(n: nat): BaseGraph {
    BaseGraph(seq(n, i => RoadEdge(i, Next(n, i), Fin(1.0), Inf)), seq(n, u => [Prev(n, u), u]))
  }

  lemma RingValid(n: nat)
    requires n >= 3
    ensures Ring(n).Valid() && |Ring(n).adjacency| == n
  {
  }

  ghost function NodesBelow(n: nat): (s: set<int>)
    ensures |s| == n && forall u :: u in s <==> 0 <= u < n
  {
    if n == 0 then {} else NodesBelow(n - 1) + {n - 1}
  }

  /** With all nodes left but one, that one is the only one contracted. */
  lemma OneContracted(levels: seq<int>) returns (v: int)
    requires LevelsOk(levels) && |levels| > 0 && |Uncontracted(levels)| == |levels| - 1
    ensures 0 <= v < |levels| && levels[v] < |levels| && forall u :: 0 <= u < |levels| && u != v ==> levels[u] == |levels|
  {
    var contracted := NodesBelow(|levels|) - Uncontracted(levels);
    assert |contracted| == 1 by {
      assert Uncontracted(levels) <= NodesBelow(|levels|);
    }
    v :| v in contracted;
    forall u | 0 <= u < |levels| && u != v ensures levels[u] == |levels| {
      if u in contracted {
        TwoElements(contracted, u, v);
      }
    }
  }

  /** The search from before the contracted node finds no edge to relax, in its direction. */
  lemma NothingOffered(ch: CHGraph, n: nat, v: int, reverse: bool)
    requires n >= 3 && ch.Valid() && ch.base == Ring(n) && 0 <= v < n
    requires ch.levels[v] < n && forall u :: 0 <= u < n && u != v ==> ch.levels[u] == n
    ensures Offered(ch, if reverse then Next(n, v) else Prev(n, v), reverse) == []
  {
    var u := if reverse then Next(n, v) else Prev(n, v);
    var offered := Offered(ch, u, reverse);
    if offered != [] {
      var h := offered[0];
      assert h in offered;
      ch.ListingExact(u, reverse, h);
      NoShortcuts(ch, u);
    }
  }

  lemma NoShortcuts(ch: CHGraph, u: int)
    requires ch.Valid() && 0 <= u < |ch.levels| && ch.levels[u] == |ch.levels|
    ensures forall i :: 0 <= i < |ch.shortcuts| ==> ch.shortcuts[i].nodeA != u
  {
    forall i | 0 <= i < |ch.shortcuts| ensures ch.shortcuts[i].nodeA != u {
      assert ShortcutLeads(ch.levels, ch.shortcuts[i]);
    }
  }

  /** A search from a node that offers nothing settles it and runs dry. */
  lemma Stuck(rules: Rules, s: Search, root: int, reverse: bool) returns (s': Search)
    requires rules.offers(root, reverse) == []
    requires s.Tree(reverse) == StartTree(root, rules.Estimate(reverse)(root))
    ensures rules.Advances(s, reverse, s') && s' == s.With(reverse, s.Tree(reverse).(queue := {}), s.best, false)
  {
    var t := s.Tree(reverse).(queue := {});
    s' := rules.Expanded(s, reverse, t);
    assert rules.AdvancesOver(s, reverse, t, s');
  }

  lemma Dries(rules: Rules, s: Search, reverse: bool) returns (s': Search)
    requires s.Tree(reverse).queue == {}
    ensures rules.Advances(s, reverse, s') && s' == s.With(reverse, s.Tree(reverse), s.best, true)
  {
    var t := s.Tree(reverse);
    s' := s.With(reverse, t, s.best, true);
    assert rules.AdvancesOver(s, reverse, t, s');
  }

  /** When neither end offers anything, the query finds nothing. */
  lemma FindsNothing(rules: Rules, from: int, to: int)
    requires from != to && rules.offers(from, false) == [] && rules.offers(to, true) == [] && forall s :: rules.stops(s) <==> Stops(s)
    ensures rules.Outcome(from, to, NoMeeting)
  {
    var start := rules.Start(from, to);
    var a := Stuck(rules, start, from, false);
    var b := Stuck(rules, a, to, true);
    assert rules.Round(start, a, b);
    var c := Dries(rules, b, false);
    var d := Dries(rules, c, true);
    assert rules.Round(b, c, d);
    assert !rules.stops(b) && rules.stops(d);
    rules.OneMoreRound(from, to, [start], b);
    assert [start] + [b] == [start, b];
    rules.OneMoreRound(from, to, [start, b], d);
    assert ([start, b] + [d])[2] == d;
  }

  function NoEstimates(): Estimates {
    Estimates(v => 0.0, v => 0.0)
  }

  /** From before the contracted node to behind it there is a walk of two edges, but a query finds none. */
  lemma QueryFindsNothing(ch: CHGraph, n: nat, v: int, stallOnDemand: bool)
    requires n >= 3 && ch.Valid() && ch.base == Ring(n) && 0 <= v < n
    requires ch.levels[v] < n && forall u :: 0 <= u < n && u != v ==> ch.levels[u] == n
    ensures CHQueries.Request(ch, Prev(n, v), Next(n, v), NoEstimates(), stallOnDemand).Rules().Outcome(Prev(n, v), Next(n, v), NoMeeting)
    ensures Reaches(ChArcs(ch.base.edges, []), Prev(n, v), Next(n, v), 2.0)
  {
    var u, w := Prev(n, v), Next(n, v);
    NothingOffered(ch, n, v, false);
    NothingOffered(ch, n, v, true);
    FindsNothing(CHQueries.Request(ch, u, w, NoEstimates(), stallOnDemand).Rules(), u, w);
    var g := ChArcs(ch.base.edges, []);
    assert IsChArc(ch.base.edges, [], Arc(u, u, v, 1.0)) && IsChArc(ch.base.edges, [], Arc(v, v, w, 1.0));
    ReachesArc(g, Arc(u, u, v, 1.0));
    ReachesArc(g, Arc(v, v, w, 1.0));
    ReachesJoin(g, u, v, w, 1.0, 1.0);
  }

  /** For every number of nodes to spare above two there is a network on which the prepared
      hierarchy misses a walk, whatever the priorities are. */
  method SpareTooMany(rules: OrderRules, stallOnDemand: bool) returns (base: BaseGraph, ch: CHGraph, from: int, to: int)
    requires rules.nodesToAvoidContract > 2
    ensures base.Valid() && ch.Valid() && ch.base == base && 0 <= from < |base.adjacency| && 0 <= to < |base.adjacency|
    ensures CHQueries.Request(ch, from, to, NoEstimates(), stallOnDemand).Rules().Outcome(from, to, NoMeeting)
    ensures Reaches(ChArcs(base.edges, []), from, to, 2.0)
  {
    var n := rules.nodesToAvoidContract;
    base := Ring(n);
    RingValid(n);
    ch := Prepare(base, rules);
    var v := 0;
    while v < n - 1 && ch.levels[v] == n
      invariant 0 <= v < n && forall u :: 0 <= u < v ==> ch.levels[u] == n
    {
      v := v + 1;
    }
    ghost var only := OneContracted(ch.levels);
    from, to := Prev(n, v), Next(n, v);
    QueryFindsNothing(ch, n, v, stallOnDemand);
  }
}
