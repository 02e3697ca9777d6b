/** The order in which nodes are contracted: by stored priorities that are brought up to date from
    time to time, when a neighbour was contracted, and towards the end when a node is polled. */
module Orderings {
  import opened Walks
  import opened PrepareGraphs
  import opened CHStorages
  import opened Hierarchies

  /** What the levels are so far, the graph that is left, the stored priorities of the nodes not
      contracted, and how many nodes were polled. Enough says that fewer nodes are left than are to
      be spared. */
  datatype OrderState = OrderState(levels: seq<int>, graph: Graph, level: nat, stored: map<int, real>, counter: nat, enough: bool)

  /** The neighbours of a node among those not contracted. */
  ghost function NeighborsIn(g: Graph, v: int, levels: seq<int>): set<int> {
    set u | u in Uncontracted(levels) && Adjacent(g, v, u)
  }

  lemma AreNeighbors(neighbors: set<int>, g: Graph, v: int, levels: seq<int>)
    requires neighbors <= Uncontracted(levels) && forall u :: u in neighbors <==> Adjacent(g, v, u)
    ensures neighbors == NeighborsIn(g, v, levels)
  {
  }

  /** All distances between other nodes are kept. */
  ghost predicate KeepsDistances(g: Graph, g': Graph, v: int) {
    forall s, t, d {:trigger IsDistance(g, s, t, d)} {:trigger IsDistance(g', s, t, d)} ::
      s != v && t != v ==> (IsDistance(g', s, t, d) <==> IsDistance(g, s, t, d))
  }

  // Definitions that are guarded by one of these stay closed until it is asserted: most proofs only
  // pass them on.

  ghost predicate TakenOpen(x: int) {
    true
  }

  ghost predicate ContractedOpen(x: int) {
    true
  }

  ghost predicate StepOpen(x: int) {
    true
  }

  ghost predicate RunOpen(x: int) {
    true
  }

  ghost predicate IsLeast(stored: map<int, real>, v: int) {
    v in stored && forall u :: u in stored ==> stored[v] <= stored[u]
  }

  ghost predicate AboveSome(p: real, stored: map<int, real>) {
    exists u :: u in stored && p > stored[u]
  }

  ghost function WithFresh(stored: map<int, real>, current: map<int, real>): map<int, real> {
    map v | v in stored :: if v in current then current[v] else stored[v]
  }

  /** The priority of a node after so many contractions, how often all priorities are brought up to
      date, below how many nodes left a polled node is looked at again, how many nodes are to be
      spared, which neighbours are drawn for an update, and at most how many (less than zero for no
      limit). */
  datatype OrderRules = OrderRules(priority: (int, int) -> real, periodicUpdatesCount: nat, lastNodesLazyUpdates: int, nodesToAvoidContract: int,
                                   drawn: (int, int) -> bool, maxNeighborUpdates: int)
  {
    ghost function Present(nodes: set<int>, level: nat): map<int, real> {
      map v | v in nodes :: priority(level, v)
    }

    lemma PresentMore(nodes: set<int>, level: nat, v: int)
      ensures Present(nodes, level)[v := priority(level, v)] == Present(nodes + {v}, level)
    {
    }

    predicate IsPeriod(counter: nat) {
      counter > 0 && periodicUpdatesCount > 0 && counter % periodicUpdatesCount == 0
    }

    /** The stored priorities from which the next node is polled. */
    ghost function Polled(s: OrderState): map<int, real> {
      if IsPeriod(s.counter) then Present(Uncontracted(s.levels), s.level) else s.stored
    }

    /** The polled node goes back: few others are left, and it has become dearer than one of them. */
    ghost predicate GoesBack(stored: map<int, real>, v: int, level: nat) {
      var rest := stored - {v};
      0 < |rest| < lastNodesLazyUpdates && AboveSome(priority(level, v), rest)
    }

    lemma LookedAtAgain(stored: map<int, real>, v: int, level: nat, rest: map<int, real>, size: nat)
      requires rest == stored - {v} && size == |rest|
      ensures GoesBack(stored, v, level) <==> 0 < size < lastNodesLazyUpdates && AboveSome(priority(level, v), rest)
    {
    }

    /** These are the neighbours that are updated: of those that are drawn all, or as many as the limit allows. */
    ghost predicate AreUpdated(neighbors: set<int>, level: nat, updated: set<int>) {
      && (forall u :: u in updated ==> u in neighbors && drawn(level, u))
      && (maxNeighborUpdates >= 0 ==> |updated| <= maxNeighborUpdates)
      && ((maxNeighborUpdates < 0 || |updated| < maxNeighborUpdates) ==> forall u :: u in neighbors && drawn(level, u) ==> u in updated)
    }

    /** The sets of neighbours that may be updated. */
    ghost function Choices(neighbors: set<int>, level: nat): iset<set<int>> {
      iset updated | AreUpdated(neighbors, level, updated)
    }

    /** Of the neighbours looked at so far. */
    ghost predicate UpdatedSoFar(seen: set<int>, level: nat, updated: set<int>) {
      AreUpdated(seen, level, updated)
    }

    lemma OneMoreNeighbor(neighbors: set<int>, rest: set<int>, level: nat, updated: set<int>, neighbor: int)
      requires rest <= neighbors && neighbor in rest && UpdatedSoFar(neighbors - rest, level, updated) && updated !! rest
      ensures var seen := neighbors - (rest - {neighbor});
              if (maxNeighborUpdates < 0 || |updated| < maxNeighborUpdates) && drawn(level, neighbor)
              then UpdatedSoFar(seen, level, updated + {neighbor}) && |updated + {neighbor}| == |updated| + 1
              else UpdatedSoFar(seen, level, updated)
    {
    }

    lemma StoredOne(stored: map<int, real>, updated: set<int>, level: nat, neighbor: int)
      requires neighbor in stored
      ensures WithFresh(stored, Present(updated, level))[neighbor := priority(level, neighbor)] == WithFresh(stored, Present(updated + {neighbor}, level))
    {
    }

    /** The neighbours' priorities are brought up to date, unless fewer nodes are left than are to be spared. */
    ghost predicate AfterContraction(rest: map<int, real>, level: nat, neighbors: set<int>, updated: set<int>, stored: map<int, real>) {
      if |rest| < nodesToAvoidContract then stored == rest
      else updated in Choices(neighbors, level) && stored == WithFresh(rest, Present(updated, level))
    }

    /** The node of least stored priority that is polled in this state is not to go back; it gets the
        level, and the rest is left. */
    ghost predicate IsTaken(s: OrderState, v: int, level: nat, levels: seq<int>, rest: map<int, real>) {
      forall x {:trigger TakenOpen(x)} :: TakenOpen(x) ==>
        && !s.enough && s.level == level && IsLeast(Polled(s), v) && !GoesBack(Polled(s), v, level) && rest == Polled(s) - {v}
        && v in Uncontracted(s.levels) && levels == s.levels[v := level] && level < |s.levels|
    }

    lemma OneFewer(levels: seq<int>, v: int, level: nat)
      requires v in Uncontracted(levels) && level < |levels|
      ensures |Uncontracted(levels[v := level])| < |Uncontracted(levels)|
    {
      assert Uncontracted(levels[v := level]) == Uncontracted(levels) - {v};
    }

    /** A node of least stored priority is polled. It goes back with its present priority, or it
        gets the next level. */
    ghost predicate Step(s: OrderState, v: int, updated: set<int>, s': OrderState) {
      var stored := Polled(s);
      && !s.enough && IsLeast(stored, v)
      && if GoesBack(stored, v, s.level)
         then s' == s.(stored := stored[v := priority(s.level, v)], counter := s.counter + 1)
         else
           && 0 <= v < |s.levels| && KeepsDistances(s.graph, s'.graph, v)
           && s' == OrderState(s.levels[v := s.level], s'.graph, s.level + 1, s'.stored, s.counter + 1, |stored - {v}| < nodesToAvoidContract)
           && AfterContraction(stored - {v}, s.level + 1, NeighborsIn(s.graph, v, s'.levels), updated, s'.stored)
    }

    ghost predicate IsStep(s: OrderState, s': OrderState) {
      forall x {:trigger StepOpen(x)} :: StepOpen(x) ==> exists v, updated {:trigger Step(s, v, updated, s')} :: Step(s, v, updated, s')
    }

    lemma CandidateOrStep(s: OrderState, v: int, stored: map<int, real>, ready: bool, left: map<int, real>)
      requires !s.enough && stored == Polled(s) && IsLeast(stored, v) && (ready <==> !GoesBack(stored, v, s.level))
      requires left == if ready then stored - {v} else stored[v := priority(s.level, v)]
      requires v in Uncontracted(s.levels) && s.level < |s.levels|
      ensures if ready then IsTaken(s, v, s.level, s.levels[v := s.level], left) else IsStep(s, s.(stored := left, counter := s.counter + 1))
    {
      if !ready {
        assert Step(s, v, {}, s.(stored := left, counter := s.counter + 1));
      }
    }

    /** The node has been contracted, and its neighbours are to be updated. */
    ghost predicate IsContracted(s: OrderState, v: int, level: nat, levels: seq<int>, rest: map<int, real>, neighbors: set<int>, graph: Graph) {
      forall x {:trigger ContractedOpen(x)} :: ContractedOpen(x) ==>
        IsTaken(s, v, level, levels, rest) && neighbors == NeighborsIn(s.graph, v, levels) && KeepsDistances(s.graph, graph, v)
    }

    lemma TakenAndContracted(s: OrderState, v: int, level: nat, levels: seq<int>, rest: map<int, real>, neighbors: set<int>, graph: Graph)
      requires IsTaken(s, v, level, levels, rest) && neighbors == NeighborsIn(s.graph, v, levels) && KeepsDistances(s.graph, graph, v)
      ensures IsContracted(s, v, level, levels, rest, neighbors, graph)
    {
    }

    lemma NodeTaken(s: OrderState, v: int, neighbors: set<int>, level: nat, rest: map<int, real>, updated: set<int>, s': OrderState)
      requires IsContracted(s, v, level, s'.levels, rest, neighbors, s'.graph)
      requires AfterContraction(rest, level + 1, neighbors, updated, s'.stored)
      requires s'.level == level + 1 && s'.counter == s.counter + 1 && (s'.enough <==> |s'.stored| < nodesToAvoidContract)
      ensures IsStep(s, s')
    {
      assert ContractedOpen(0) && TakenOpen(0);
      SameSize(rest, level + 1, neighbors, updated, s'.stored);
      assert Step(s, v, updated, s');
    }

    lemma SameSize(rest: map<int, real>, level: nat, neighbors: set<int>, updated: set<int>, stored: map<int, real>)
      requires AfterContraction(rest, level, neighbors, updated, stored)
      ensures |stored| == |rest|
    {
      assert stored.Keys == rest.Keys;
      assert |stored.Keys| == |stored| && |rest.Keys| == |rest|;
    }

    ghost predicate Follows(run: seq<OrderState>, i: int) {
      0 < i < |run| && IsStep(run[i - 1], run[i])
    }

    ghost predicate IsStart(s: OrderState) {
      && (forall u {:trigger s.levels[u]} :: 0 <= u < |s.levels| ==> s.levels[u] == |s.levels|)
      && s.level == 0 && s.counter == 0 && !s.enough && s.stored == Present(Uncontracted(s.levels), 0)
    }

    /** The states from the beginning on, poll by poll. */
    ghost predicate IsRun(run: seq<OrderState>) {
      run != [] && IsStart(run[0]) && forall i {:trigger Follows(run, i)} :: 0 < i < |run| ==> Follows(run, i)
    }

    /** Some run from a graph comes to this state. */
    ghost predicate Reaches(g: Graph, s: OrderState) {
      forall x {:trigger RunOpen(x)} :: RunOpen(x) ==> exists run: seq<OrderState> {:trigger IsRun(run)} :: IsRun(run) && run[0].graph == g && run[|run| - 1] == s
    }

    lemma ReachesStart(s: OrderState)
      requires IsStart(s)
      ensures Reaches(s.graph, s)
    {
      assert IsRun([s]);
    }

    lemma ReachesNext(g: Graph, s: OrderState, s': OrderState)
      requires Reaches(g, s) && IsStep(s, s')
      ensures Reaches(g, s')
    {
      assert RunOpen(0);
      var run: seq<OrderState> :| IsRun(run) && run[0].graph == g && run[|run| - 1] == s;
      var more := run + [s'];
      forall i | 0 < i < |more| ensures Follows(more, i) {
        assert i < |run| ==> Follows(run, i);
      }
      assert IsRun(more);
    }

    /** No node is left, or fewer than are to be spared. */
    ghost predicate Ends(s: OrderState) {
      s.enough || s.stored == map[]
    }

    /** A run from the graph ends with these levels. */
    ghost predicate Outcome(g: Graph, levels: seq<int>) {
      exists s :: Reaches(g, s) && Ends(s) && s.levels == levels
    }

    // ----- priorities that stay

    ghost predicate Static() {
      forall level, v :: priority(level, v) == priority(0, v)
    }

    /** What is stored is up to date, and every contracted node is at most as dear as all after it. */
    ghost predicate InOrder(s: OrderState) {
      && s.stored == Present(Uncontracted(s.levels), 0) && LevelsTaken(s.levels, s.level)
      && forall u, w {:trigger s.levels[u], s.levels[w]} ::
           0 <= u < |s.levels| && 0 <= w < |s.levels| && s.levels[u] < s.levels[w] ==> priority(0, u) <= priority(0, w)
    }

    lemma StartInOrder(s: OrderState)
      requires IsStart(s)
      ensures InOrder(s)
    {
      FirstLevel(s.levels);
    }

    lemma StaysPresent(rest: map<int, real>, level: nat, neighbors: set<int>, updated: set<int>, stored: map<int, real>, nodes: set<int>)
      requires Static() && rest == Present(nodes, 0) && AfterContraction(rest, level, neighbors, updated, stored)
      ensures stored == rest
    {
      if |rest| >= nodesToAvoidContract {
        forall u | u in rest ensures stored[u] == rest[u] {
          assert priority(level, u) == priority(0, u);
        }
      }
    }

    lemma StepInOrder(s: OrderState, v: int, updated: set<int>, s': OrderState)
      requires Static() && InOrder(s) && Step(s, v, updated, s')
      ensures InOrder(s')
    {
      PolledIsPresent(s);
      NotAbove(s, v);
      NextLevel(s.levels, s.level, v);
      RestIsPresent(s, v);
      StaysPresent(Polled(s) - {v}, s.level + 1, NeighborsIn(s.graph, v, s'.levels), updated, s'.stored, Uncontracted(s.levels) - {v});
      LevelsInOrder(s, v);
    }

    lemma PolledIsPresent(s: OrderState)
      requires Static() && InOrder(s)
      ensures Polled(s) == Present(Uncontracted(s.levels), 0)
    {
      forall u | u in Uncontracted(s.levels) ensures priority(s.level, u) == priority(0, u) {
      }
    }

    lemma RestIsPresent(s: OrderState, v: int)
      requires Polled(s) == Present(Uncontracted(s.levels), 0)
      ensures Polled(s) - {v} == Present(Uncontracted(s.levels) - {v}, 0)
    {
    }

    lemma NotAbove(s: OrderState, v: int)
      requires Static() && InOrder(s) && Polled(s) == Present(Uncontracted(s.levels), 0) && IsLeast(Polled(s), v)
      ensures !GoesBack(Polled(s), v, s.level)
    {
      assert priority(s.level, v) == priority(0, v);
    }

    lemma LevelsInOrder(s: OrderState, v: int)
      requires InOrder(s) && IsLeast(Present(Uncontracted(s.levels), 0), v) && v in Uncontracted(s.levels)
      ensures forall u, w {:trigger s.levels[v := s.level][u], s.levels[v := s.level][w]} ::
                0 <= u < |s.levels| && 0 <= w < |s.levels| && s.levels[v := s.level][u] < s.levels[v := s.level][w] ==> priority(0, u) <= priority(0, w)
    {
      var levels' := s.levels[v := s.level];
      forall u, w | 0 <= u < |levels'| && 0 <= w < |levels'| && levels'[u] < levels'[w] ensures priority(0, u) <= priority(0, w) {
        if u == v {
          assert w != v && levels'[w] == s.levels[w];
          assert !Contracted(s.levels, w);
          assert w in Uncontracted(s.levels) && w in Present(Uncontracted(s.levels), 0);
        } else if w == v {
          assert s.levels[u] < s.levels[v];
        } else {
          assert s.levels[u] < s.levels[w];
        }
      }
    }

    /** As long as priorities stay, nodes are contracted in their order: a node that comes later, or
        is left, is at least as dear. */
    lemma {:induction false} RunInOrder(run: seq<OrderState>, i: nat)
      requires Static() && IsRun(run) && i < |run|
      ensures InOrder(run[i])
    {
      if i == 0 {
        StartInOrder(run[0]);
      } else {
        RunInOrder(run, i - 1);
        assert Follows(run, i) && StepOpen(0);
        var v, updated :| Step(run[i - 1], v, updated, run[i]);
        StepInOrder(run[i - 1], v, updated, run[i]);
      }
    }

    /** So the levels of a finished preparation are in the order of the priorities. */
    lemma OutcomeInOrder(g: Graph, levels: seq<int>, u: int, w: int)
      requires Static() && Outcome(g, levels) && 0 <= u < |levels| && 0 <= w < |levels| && levels[u] < levels[w]
      ensures priority(0, u) <= priority(0, w)
    {
      var s :| Reaches(g, s) && Ends(s) && s.levels == levels;
      assert RunOpen(0);
      var run: seq<OrderState> :| IsRun(run) && run[0].graph == g && run[|run| - 1] == s;
      RunInOrder(run, |run| - 1);
      assert s.levels[u] < s.levels[w];
    }
  }
}
