/** The balanced potential that turns the bidirectional search into A*, and the zero
    potential that leaves it Dijkstra's. */
module AStar {
  import opened Walks
  import opened RoutingGraphs
  import opened SearchRuns
  import opened Meetings
  import opened BidirSearches
  import opened Paths

  /** Estimates of the weight from a node to a goal (first the node, then the goal), and how
      much they may overshoot. */
  datatype Approximator = Approximator(estimate: (int, int) -> real, slack: real)

  /** No arc lowers the estimate by more than its weight. */
  ghost predicate Consistent(g: Graph, approx: Approximator, goal: int) {
    forall a :: a in g ==> approx.estimate(a.from, goal) <= a.weight + approx.estimate(a.to, goal)
  }

  /** Both estimates of a node, shifted so that each is half of the one-sided estimate at its own target. */
  function Balanced(fwd: Approximator, rev: Approximator, from: int, to: int, fromOffset: real, toOffset: real, node: int, reverse: bool): real {
    var weightApproximation := 0.5 * (fwd.estimate(node, to) - rev.estimate(node, from));
    if reverse then fromOffset - weightApproximation else toOffset + weightApproximation
  }

  function ShiftedPotential(fwd: Approximator, rev: Approximator, from: int, to: int, fromOffset: real, toOffset: real): Potential {
    Potential(v => Balanced(fwd, rev, from, to, fromOffset, toOffset, v, false), v => Balanced(fwd, rev, from, to, fromOffset, toOffset, v, true),
              Balanced(fwd, rev, from, to, fromOffset, toOffset, to, true) + fwd.slack)
  }

  function BalancedPotential(fwd: Approximator, rev: Approximator, from: int, to: int): Potential {
    ShiftedPotential(fwd, rev, from, to, 0.5 * fwd.estimate(from, to), 0.5 * rev.estimate(to, from))
  }

  class BalancedWeightApproximator {
    const fwd: Approximator
    const rev: Approximator
    var fwdTo: int
    var revTo: int
    var fromOffset: real
    var toOffset: real

    constructor (fwd: Approximator, rev: Approximator)
      ensures this.fwd == fwd && this.rev == rev
    {
      this.fwd, this.rev := fwd, rev;
      fwdTo, revTo, fromOffset, toOffset := -1, -1, 0.0, 0.0;
    }

    method SetFromTo(from: int, to: int)
      modifies this
      ensures revTo == from && fwdTo == to
      ensures fromOffset == 0.5 * fwd.estimate(from, to) && toOffset == 0.5 * rev.estimate(to, from)
      ensures Approximate(to, false) == 0.5 * fwd.estimate(to, to)
      ensures Approximate(from, true) == 0.5 * rev.estimate(from, from)
    {
      revTo := from;
      fwdTo := to;
      fromOffset := 0.5 * fwd.estimate(from, fwdTo);
      toOffset := 0.5 * rev.estimate(to, revTo);
    }

    function Approximate(node: int, reverse: bool): real
      reads this
    {
      Balanced(fwd, rev, revTo, fwdTo, fromOffset, toOffset, node, reverse)
    }

    /** The potential of the search: the offset of the stop test is the backward estimate of
        the target plus the slack. */
    method ToPotential() returns (p: Potential)
      ensures p == ShiftedPotential(fwd, rev, revTo, fwdTo, fromOffset, toOffset)
      ensures forall v :: p.forwardEstimate(v) == Approximate(v, false) && p.backwardEstimate(v) == Approximate(v, true)
      ensures p.stopOffset == Approximate(fwdTo, true) + fwd.slack
    {
      p := ShiftedPotential(fwd, rev, revTo, fwdTo, fromOffset, toOffset);
    }
  }

  /** The constant that two balanced estimates add up to. */
  function Total(fwd: Approximator, rev: Approximator, from: int, to: int): real {
    0.5 * fwd.estimate(from, to) + 0.5 * rev.estimate(to, from)
  }

  /** What a search with estimates may ask for. */
  ghost predicate Asks(graph: Adjacency, from: int, to: int, fwd: Approximator, rev: Approximator) {
    && ValidGraph(graph) && 0 <= from < |graph| && 0 <= to < |graph|
    && Consistent(Steps(graph, false), fwd, to) && Consistent(Steps(graph, true), rev, from)
  }

  function AStarRequest(graph: Adjacency, from: int, to: int, fwd: Approximator, rev: Approximator): Request {
    Request(graph, from, to, BalancedPotential(fwd, rev, from, to))
  }

  /** The two balanced estimates sum to the same constant at every node and leave no arc a
      negative reduced weight; the stop test grants them that constant exactly when the
      forward estimate at the target is at most twice the slack. */
  lemma BalancedFits(graph: Adjacency, from: int, to: int, fwd: Approximator, rev: Approximator)
    requires Asks(graph, from, to, fwd, rev)
    ensures AStarRequest(graph, from, to, fwd, rev).Valid(Total(fwd, rev, from, to))
    ensures BalancedPotential(fwd, rev, from, to).stopOffset >= Total(fwd, rev, from, to) <==> fwd.estimate(to, to) <= 2.0 * fwd.slack
  {
    var p := BalancedPotential(fwd, rev, from, to);
    forall reverse, a | a in Steps(graph, reverse)
      ensures p.Estimate(reverse)(a.from) <= a.weight + p.Estimate(reverse)(a.to)
    {
      FlipMember(Steps(graph, !reverse), a);
      StepsReversed(graph, !reverse);
      var f, r := if reverse then Flip(a) else a, if reverse then a else Flip(a);
      assert f in Steps(graph, false) && r in Steps(graph, true);
    }
    assert forall a :: a in Steps(graph, false) ==> p.Estimate(false)(a.from) <= a.weight + p.Estimate(false)(a.to);
    assert forall a :: a in Steps(graph, true) ==> p.Estimate(true)(a.from) <= a.weight + p.Estimate(true)(a.to);
  }

  /** A run of the search may end with this best path. */
  ghost predicate Finds(graph: Adjacency, from: int, to: int, fwd: Approximator, rev: Approximator, m: Meeting) {
    AStarRequest(graph, from, to, fwd, rev).Rules().Outcome(from, to, m)
  }

  /** Whatever a run finds is exact if the estimate at the target is within twice the slack. */
  lemma FindsDistance(graph: Adjacency, from: int, to: int, fwd: Approximator, rev: Approximator, m: Meeting)
    requires Asks(graph, from, to, fwd, rev) && Finds(graph, from, to, fwd, rev, m)
    ensures m.NoMeeting? || fwd.estimate(to, to) <= 2.0 * fwd.slack ==> IsDistance(Steps(graph, false), from, to, m.Weight())
  {
    BalancedFits(graph, from, to, fwd, rev);
    AStarRequest(graph, from, to, fwd, rev).OutcomeAnswers(m, Total(fwd, rev, from, to));
  }

  /** Bidirectional A*: what it returns is always a walk of its weight, and a lightest one if the
      estimate at the target is within twice the slack. */
  method CalcPathAStar(graph: Adjacency, from: int, to: int, fwd: Approximator, rev: Approximator) returns (path: Path)
    requires Asks(graph, from, to, fwd, rev)
    ensures exists m :: Finds(graph, from, to, fwd, rev, m) && path.Weight() == m.Weight()
    ensures path.NotFound? || fwd.estimate(to, to) <= 2.0 * fwd.slack ==> IsDistance(Steps(graph, false), from, to, path.Weight())
    ensures Describes(Steps(graph, false), from, to, path)
  {
    var b := new BalancedWeightApproximator(fwd, rev);
    b.SetFromTo(from, to);
    var p := b.ToPotential();
    BalancedFits(graph, from, to, fwd, rev);
    var request := Request(graph, from, to, p);
    assert request == AStarRequest(graph, from, to, fwd, rev);
    path := CalcPath(request, Total(fwd, rev, from, to));
  }

  /** Bidirectional Dijkstra: the same search without estimates. */
  method CalcPathDijkstra(graph: Adjacency, from: int, to: int) returns (path: Path)
    requires ValidGraph(graph) && 0 <= from < |graph| && 0 <= to < |graph|
    ensures IsDistance(Steps(graph, false), from, to, path.Weight())
    ensures Describes(Steps(graph, false), from, to, path)
  {
    var p := Potential(_ => 0.0, _ => 0.0, 0.0);
    StepsNonNegative(graph, false);
    StepsNonNegative(graph, true);
    path := CalcPath(Request(graph, from, to, p), 0.0);
  }
}
