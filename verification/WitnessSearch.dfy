/** The search for a detour around the node to be contracted. One search tree serves all
    targets of a start node, while shortcuts are added to the graph under it. */
module WitnessSearch {
  import opened Walks
  import opened HeapOrder
  import opened BinaryHeaps
  import opened PrepareGraphs
  import opened Contraction
  import opened WitnessTrees

  const INITIAL_CAPACITY := 1000

  ghost predicate Detour(g: Graph, start: int, v: int, w: Weight) {
    w.Fin? ==> Reaches(g, start, v, w.value)
  }

  /** Every finite weight is an upper bound: some walk from the start is no heavier. */
  ghost predicate Detours(g: Graph, start: int, weights: seq<Weight>) {
    forall v {:trigger Detour(g, start, v, weights[v])} :: 0 <= v < |weights| ==> Detour(g, start, v, weights[v])
  }

  ghost predicate Reached(weights: seq<Weight>, ignored: int, x: int) {
    0 <= x < |weights| && weights[x].Fin? && x != ignored
  }

  /** Everything in the heap is a reached node. */
  ghost predicate AllReached(weights: seq<Weight>, ignored: int, contents: multiset<(int, Key)>) {
    forall x: (int, Key) {:trigger contents[x]} :: x in contents ==> Reached(weights, ignored, x.0)
  }

  lemma StillReached(weights: seq<Weight>, ignored: int, contents: multiset<(int, Key)>, x: (int, Key))
    requires AllReached(weights, ignored, contents) && x in contents
    ensures AllReached(weights, ignored, contents - multiset{x}) && Reached(weights, ignored, x.0)
  {
    assert contents[x] > 0;
    forall y | y in contents - multiset{x} ensures Reached(weights, ignored, y.0) {
      assert contents[y] > 0;
    }
  }

  lemma DetourStep(g: Graph, start: int, weights: seq<Weight>, a: Arc)
    requires Detours(g, start, weights) && a in g && 0 <= a.from < |weights| && 0 <= a.to < |weights| && weights[a.from].Fin?
    ensures Detours(g, start, weights[a.to := Fin(weights[a.from].value + a.weight)])
  {
    var w := weights[a.to := Fin(weights[a.from].value + a.weight)];
    forall v | 0 <= v < |w| ensures Detour(g, start, v, w[v]) {
      assert Detour(g, start, v, weights[v]);
      if v == a.to {
        assert Detour(g, start, a.from, weights[a.from]);
        ReachesArc(g, a);
        ReachesJoin(g, start, a.from, a.to, weights[a.from].value, a.weight);
      }
    }
  }

  /** Detours outlive every change that covers the old graph, such as a new shortcut or a
      lighter one. */
  lemma DetoursCovered(h: Graph, g: Graph, start: int, weights: seq<Weight>)
    requires Detours(g, start, weights) && Covers(h, g)
    ensures Detours(h, start, weights)
  {
    forall v | 0 <= v < |weights| ensures Detour(h, start, v, weights[v]) {
      assert Detour(g, start, v, weights[v]);
      if weights[v].Fin? {
        CoversReaches(h, g, start, v, weights[v].value);
      }
    }
  }

  class NodeBasedWitnessPathSearcher {
    const graph: CHPreparationGraph
    const weights: array<Weight>
    const heap: IntFloatBinaryHeap
    var changedNodes: seq<int>
    var ignoreNode: int
    var settledNodes: int
    ghost var startNode: int
    ghost var begun: Graph  // the graph when the search was begun
    ghost var progress: Progress
    ghost var Repr: set<object>

    ghost predicate Valid()
      reads this, heap, weights, heap.elements, heap.keys
    {
      && heap.Valid() && weights.Length == graph.nodes
      && (forall v {:trigger weights[v]} :: 0 <= v < weights.Length && weights[v].Fin? ==> v in changedNodes)
      && (forall v :: v in changedNodes ==> 0 <= v < weights.Length)
    }

    ghost predicate Owned()
      reads this, heap
    {
      {this, weights, heap, heap.elements, heap.keys} <= Repr && graph !in Repr
    }

    /** What the search owns now, it owned before or has allocated since. */
    twostate predicate Extended()
      reads this
    {
      forall o: object :: o in Repr ==> o in old(Repr) || fresh(o)
    }

    /** The search tree is one of detours in the graph as it is now. */
    ghost predicate Searching(g: Graph)
      reads this, heap, weights, heap.elements, heap.keys
    {
      Valid() && Detours(g, startNode, weights[..]) && AllReached(weights[..], ignoreNode, heap.contents)
    }

    /** The search goes on from where it stopped, or is relaxing the arcs of the current node. */
    ghost predicate Tracking(current: int)
      reads this, heap, weights
    {
      Tracks(begun, startNode, weights[..], progress, heap.contents) && progress.current == current && NonNegative(begun)
    }

    /** The nodes settled so far are counted. */
    ghost predicate Counting()
      reads this
    {
      settledNodes == |progress.settled|
    }

    /** The search goes on in a graph that has got new or lighter shortcuts. */
    lemma GoesOn(h: Graph, g: Graph)
      requires Searching(g) && Dominates(g, begun) && Dominates(h, g)
      ensures Searching(h) && Dominates(h, begun)
    {
      DominatesCovers(h, g);
      DominatesTransitive(h, g, begun);
      DetoursCovered(h, g, startNode, weights[..]);
    }

    constructor (graph: CHPreparationGraph)
      ensures Valid() && Owned() && this.graph == graph && fresh(Repr)
    {
      this.graph := graph;
      weights := new Weight[graph.nodes](_ => Inf);
      heap := new IntFloatBinaryHeap(INITIAL_CAPACITY);
      changedNodes, ignoreNode, settledNodes, startNode, begun := [], -1, 0, -1, iset{};
      new;
      Repr := {this, weights, heap, heap.elements, heap.keys};
    }

    method Reset()
      requires Valid()
      modifies this`changedNodes, this`ignoreNode, this`settledNodes, weights, heap`size, heap`contents
      ensures Valid() && changedNodes == [] && heap.contents == multiset{} && settledNodes == 0
      ensures heap.elements == old(heap.elements) && heap.keys == old(heap.keys)
      ensures forall v :: 0 <= v < weights.Length ==> weights[v].Inf?
    {
      var i := 0;
      while i < |changedNodes|
        invariant 0 <= i <= |changedNodes| && changedNodes == old(changedNodes)
        invariant heap.Valid() && heap.elements == old(heap.elements) && heap.keys == old(heap.keys)
        invariant forall v :: v in changedNodes ==> 0 <= v < weights.Length
        invariant forall v {:trigger weights[v]} :: 0 <= v < weights.Length && weights[v].Fin? ==> v in changedNodes[i..]
      {
        assert changedNodes[i] in changedNodes;
        weights[changedNodes[i]] := Inf;
        i := i + 1;
      }
      changedNodes := [];
      heap.Clear();
      ignoreNode, settledNodes := -1, 0;
    }

    /** Starts a new tree; it is reused for all targets until the next call. */
    method Init(startNode: int, ignoreNode: int, ghost g: Graph)
      requires Valid() && Owned() && 0 <= startNode < graph.nodes && startNode != ignoreNode && NonNegative(g)
      modifies Repr
      ensures this.startNode == startNode && this.ignoreNode == ignoreNode && begun == g
      ensures Searching(g) && Tracking(NO_NODE) && Counting() && Owned() && Extended()
    {
      Reset();
      this.ignoreNode := ignoreNode;
      this.startNode := startNode;
      weights[startNode] := Fin(0.0);
      changedNodes := changedNodes + [startNode];
      heap.Insert(0.0, startNode);
      ReachesSelf(g, startNode, 0.0);
      begun, progress := g, Progress(map[], 0.0, NO_NODE);
      TracksStart(g, startNode, weights[..]);
      assert heap.contents == multiset{(startNode, Key(0.0))};
      Repr := Repr + {heap.elements, heap.keys};
    }

    /** The first i arcs of the current node are relaxed. */
    ghost predicate DoneUpTo(node: int, i: nat)
      reads this, graph, weights
    {
      forall j {:trigger graph.out[node][j]} :: 0 <= node < |graph.out| && 0 <= j < i && j < |graph.out[node]| ==> IdDone(node, graph.out[node][j])
    }

    ghost predicate IdDone(node: int, id: int)
      reads this, graph, weights
    {
      id in graph.edges && graph.edges[id].WeightAt(node, false).Fin? && graph.edges[id].Adj(node) != ignoreNode
      ==> ArcDone(weights[..], progress, progress.level, LeavingArc(graph.edges, node, id))
    }

    /** Relaxes the arcs of a polled node, except those to the ignored node. */
    method Expand(node: int, ghost g: Graph)
      requires Searching(g) && Tracking(node) && graph.Valid() && g == Around(graph.Graph(), ignoreNode)
      requires Reached(weights[..], ignoreNode, node)
      modifies this`changedNodes, weights, heap, heap.elements, heap.keys
      ensures Searching(g) && Tracking(node) && DoneUpTo(node, |graph.out[node]|)
      ensures heap.elements == old(heap.elements) || fresh(heap.elements)
      ensures heap.keys == old(heap.keys) || fresh(heap.keys)
    {
      var i := 0;
      while i < |graph.out[node]|
        invariant 0 <= i <= |graph.out[node]| && Searching(g) && Tracking(node) && Reached(weights[..], ignoreNode, node) && DoneUpTo(node, i)
        invariant heap.elements == old(heap.elements) || fresh(heap.elements)
        invariant heap.keys == old(heap.keys) || fresh(heap.keys)
      {
        RelaxNext(node, i, g);
        i := i + 1;
      }
    }

    method RelaxNext(node: int, i: nat, ghost g: Graph)
      requires Searching(g) && Tracking(node) && graph.Valid() && g == Around(graph.Graph(), ignoreNode)
      requires Reached(weights[..], ignoreNode, node) && i < |graph.out[node]| && DoneUpTo(node, i)
      modifies this`changedNodes, weights, heap, heap.elements, heap.keys
      ensures Searching(g) && Tracking(node) && Reached(weights[..], ignoreNode, node) && DoneUpTo(node, i + 1)
      ensures heap.elements == old(heap.elements) || fresh(heap.elements)
      ensures heap.keys == old(heap.keys) || fresh(heap.keys)
    {
      ghost var w := weights[..];
      Relax(node, graph.out[node][i], g);
      forall j | 0 <= j <= i ensures IdDone(node, graph.out[node][j]) {
        var id := graph.out[node][j];
        if j < i && id in graph.edges && graph.edges[id].WeightAt(node, false).Fin? && graph.edges[id].Adj(node) != ignoreNode {
          ArcStaysDone(w, weights[..], progress, progress.level, LeavingArc(graph.edges, node, id));
        }
      }
    }

    /** Arcs of the graph that leave a node for another than the ignored one. */
    ghost predicate Leads(node: int, id: int, g: Graph)
      reads this, graph, weights
    {
      && graph.Valid() && g == Around(graph.Graph(), ignoreNode) && weights.Length == graph.nodes
      && Reached(weights[..], ignoreNode, node) && Listed(graph.out, node, id)
    }

    method Relax(node: int, id: int, ghost g: Graph)
      requires Searching(g) && Tracking(node) && Leads(node, id, g)
      modifies this`changedNodes, weights, heap, heap.elements, heap.keys
      ensures Searching(g) && Tracking(node) && Reached(weights[..], ignoreNode, node)
      ensures Lower(old(weights[..]), weights[..]) && IdDone(node, id)
      ensures heap.elements == old(heap.elements) || fresh(heap.elements)
      ensures heap.keys == old(heap.keys) || fresh(heap.keys)
    {
      assert OpenAt(graph.edges, graph.nodes, node, id, false);
      var adjNode := graph.edges[id].Adj(node);
      if adjNode == ignoreNode {
        return;
      }
      var weight := weights[node].value + graph.edges[id].WeightAt(node, false).value;
      ghost var a := LeavingArc(graph.edges, node, id);
      DetourStep(g, startNode, weights[..], a);
      if weights[adjNode].Inf? {
        Discover(adjNode, weight, g, a);
      } else if weight < weights[adjNode].value {
        Improve(adjNode, weight, g, a);
      } else {
        NothingBetter(begun, startNode, weights[..], progress, a);
      }
    }

    method SetWeight(node: int, weight: real)
      requires 0 <= node < weights.Length
      modifies weights
      ensures weights[..] == old(weights[..])[node := Fin(weight)]
    {
      weights[node] := Fin(weight);
    }

    /** An arc of the current node that leads to adjNode with this weight. */
    ghost predicate Offers(a: Arc, adjNode: int, weight: real)
      reads this
    {
      a.from == progress.current != NO_NODE && a.to == adjNode && a.weight >= 0.0 && weight == progress.level + a.weight
    }

    method Discover(adjNode: int, weight: real, ghost g: Graph, ghost a: Arc)
      requires Searching(g) && Tracking(progress.current) && 0 <= adjNode < weights.Length && adjNode != ignoreNode && weights[adjNode].Inf?
      requires Detours(g, startNode, weights[..][adjNode := Fin(weight)]) && Offers(a, adjNode, weight)
      modifies this`changedNodes, weights, heap, heap.elements, heap.keys
      ensures Searching(g) && Tracking(progress.current) && weights[..] == old(weights[..])[adjNode := Fin(weight)]
      ensures Lower(old(weights[..]), weights[..]) && ArcDone(weights[..], progress, progress.level, a)
      ensures heap.elements == old(heap.elements) || fresh(heap.elements)
      ensures heap.keys == old(heap.keys) || fresh(heap.keys)
    {
      Discovered(begun, startNode, weights[..], progress, heap.contents, a);
      SetWeight(adjNode, weight);
      heap.Insert(weight, adjNode);
      changedNodes := changedNodes + [adjNode];
    }

    method Improve(adjNode: int, weight: real, ghost g: Graph, ghost a: Arc)
      requires Searching(g) && Tracking(progress.current) && 0 <= adjNode < weights.Length && adjNode != ignoreNode
      requires weights[adjNode].Fin? && weight < weights[adjNode].value
      requires Detours(g, startNode, weights[..][adjNode := Fin(weight)]) && Offers(a, adjNode, weight)
      modifies weights, heap, heap.elements, heap.keys
      ensures Searching(g) && Tracking(progress.current) && weights[..] == old(weights[..])[adjNode := Fin(weight)]
      ensures Lower(old(weights[..]), weights[..]) && ArcDone(weights[..], progress, progress.level, a)
      ensures heap.elements == old(heap.elements) && heap.keys == old(heap.keys)
    {
      ghost var w, before := weights[..], heap.contents;
      assert weights[adjNode].Fin? && adjNode in changedNodes;
      SetWeight(adjNode, weight);
      var previous := heap.Update(weight, adjNode);
      OwnEntry(begun, startNode, w, progress, before, adjNode, previous);
      Improved(begun, startNode, w, progress, before, a, heap.contents);
    }

    method SettleNext(ghost g: Graph) returns (node: int)
      requires Searching(g) && Tracking(NO_NODE) && graph.Valid() && g == Around(graph.Graph(), ignoreNode) && heap.size != 0
      requires Dominates(g, begun)
      modifies this`changedNodes, this`settledNodes, this`progress, weights, heap, heap.elements, heap.keys
      ensures Searching(g) && Tracking(NO_NODE) && settledNodes == old(settledNodes) + 1 && (old(Counting()) ==> Counting())
      ensures 0 <= node < weights.Length && weights[node].Fin? && forall x :: x in old(heap.contents) ==> Key(weights[node].value).AtMost(x.1)
      ensures heap.elements == old(heap.elements) || fresh(heap.elements)
      ensures heap.keys == old(heap.keys) || fresh(heap.keys)
    {
      node := PollNode(g);
      Expand(node, g);
      AllDone(node, g);
      TracksSettled(begun, g, startNode, weights[..], progress, heap.contents);
      OneMoreSettled(begun, startNode, weights[..], progress);
      progress := progress.(settled := progress.settled[node := progress.level], current := NO_NODE);
      settledNodes := settledNodes + 1;
    }

    method PollNode(ghost g: Graph) returns (node: int)
      requires Searching(g) && Tracking(NO_NODE) && heap.size != 0
      modifies this`progress, heap, heap.elements, heap.keys
      ensures Searching(g) && Tracking(node) && node != NO_NODE && Reached(weights[..], ignoreNode, node)
      ensures progress.settled == old(progress.settled)
      ensures forall x :: x in old(heap.contents) ==> Key(progress.level).AtMost(x.1)
      ensures heap.elements == old(heap.elements) && heap.keys == old(heap.keys)
    {
      ghost var before := heap.contents;
      node := heap.Poll();
      ghost var k :| (node, k) in before && heap.contents == before - multiset{(node, k)} && forall x :: x in before ==> k.AtMost(x.1);
      TracksPolled(begun, startNode, weights[..], progress, before, (node, k));
      StillReached(weights[..], ignoreNode, before, (node, k));
      progress := progress.(current := node, level := k.value);
    }

    lemma AllDone(node: int, g: Graph)
      requires graph.Valid() && g == Around(graph.Graph(), ignoreNode) && weights.Length == graph.nodes
      requires 0 <= node < graph.nodes && DoneUpTo(node, |graph.out[node]|)
      ensures forall c {:trigger c in g} :: c in g && c.from == node ==> ArcDone(weights[..], progress, progress.level, c) && c.to != node
    {
      forall c | c in g && c.from == node ensures ArcDone(weights[..], progress, progress.level, c) && c.to != node {
        assert Listed(graph.out, node, c.edge) && OpenAt(graph.edges, graph.nodes, node, c.edge, false);
        var j :| 0 <= j < |graph.out[node]| && graph.out[node][j] == c.edge;
        assert IdDone(node, graph.out[node][j]);
      }
    }

    /** Everything still in the heap is heavier than the accepted weight. */
    ghost predicate Passed(acceptedWeight: real)
      reads this, heap
    {
      forall x {:trigger heap.contents[x]} :: x in heap.contents ==> x.1.Key? && x.1.value > acceptedWeight
    }

    ghost predicate Decided(targetNode: int, acceptedWeight: real)
      reads this, heap, weights
    {
      Passed(acceptedWeight) || WeighsAtMost(weights[..], targetNode, acceptedWeight)
    }

    /** Whether the search need not go on: the target is light enough, or the rest is too heavy. */
    method IsDecided(targetNode: int, acceptedWeight: real) returns (decided: bool)
      requires Valid() && Tracking(NO_NODE) && 0 <= targetNode < weights.Length && heap.size != 0
      ensures decided ==> Decided(targetNode, acceptedWeight)
      ensures !decided ==> exists x :: x in heap.contents && x.1.AtMost(Key(acceptedWeight))
    {
      var key := heap.PeekKey();
      if key > acceptedWeight {
        forall x | x in heap.contents ensures x.1.Key? && x.1.value > acceptedWeight {
          assert Key(key).AtMost(x.1) && IsEntry(weights[..], progress, x);
        }
        return true;
      }
      decided := weights[targetNode].Fin? && weights[targetNode].value <= acceptedWeight;
    }

    /** Settles nodes until it is decided whether the target is light enough, or the limit is hit. */
    method Settle(targetNode: int, acceptedWeight: real, maxSettledNodes: int, ghost g: Graph)
      requires Searching(g) && Tracking(NO_NODE) && graph.Valid() && g == Around(graph.Graph(), ignoreNode) && Dominates(g, begun)
      requires 0 <= targetNode < graph.nodes && Owned() && Counting()
      modifies this`changedNodes, this`settledNodes, this`progress, weights, heap, heap.elements, heap.keys
      ensures Searching(g) && Tracking(NO_NODE) && Counting()
      ensures settledNodes < maxSettledNodes ==> Decided(targetNode, acceptedWeight)
      ensures heap.elements == old(heap.elements) || fresh(heap.elements)
      ensures heap.keys == old(heap.keys) || fresh(heap.keys)
    {
      var decided := false;
      while !decided && heap.size != 0 && settledNodes < maxSettledNodes
        invariant Searching(g) && Tracking(NO_NODE) && Counting() && (decided ==> Decided(targetNode, acceptedWeight))
        invariant heap.elements == old(heap.elements) || fresh(heap.elements)
        invariant heap.keys == old(heap.keys) || fresh(heap.keys)
        decreases maxSettledNodes - settledNodes, !decided
      {
        decided := IsDecided(targetNode, acceptedWeight);
        if !decided {
          var node := SettleNext(g);
          decided := node == targetNode;
        }
      }
      if heap.size == 0 {
        NothingHeld(heap.elements[..], heap.keys[..], heap.contents);
      }
    }

    /** Continues the search for a target until it is found, can only be reached by something
        heavier than the accepted weight, or the limit of settled nodes is hit. Unless the limit was
        hit, a target that seems too far is: every detour in the graph in which the search was begun
        is heavier than the accepted weight. */
    method FindUpperBound(targetNode: int, acceptedWeight: real, maxSettledNodes: int, ghost g: Graph) returns (bound: Weight)
      requires Searching(g) && Tracking(NO_NODE) && graph.Valid() && g == Around(graph.Graph(), ignoreNode) && Dominates(g, begun)
      requires 0 <= targetNode < graph.nodes && Owned() && Counting()
      modifies Repr
      ensures Searching(g) && Tracking(NO_NODE) && Counting() && Detour(g, startNode, targetNode, bound) && bound == weights[targetNode]
      ensures settledNodes < maxSettledNodes && !bound.AtMost(Fin(acceptedWeight))
              ==> forall p :: IsWalk(begun, startNode, targetNode, p) ==> Length(p) > acceptedWeight
      ensures startNode == old(startNode) && ignoreNode == old(ignoreNode) && begun == old(begun)
      ensures Owned() && Extended()
    {
      Settle(targetNode, acceptedWeight, maxSettledNodes, g);
      bound := weights[targetNode];
      Repr := Repr + {heap.elements, heap.keys};
      assert Detour(g, startNode, targetNode, weights[..][targetNode]);
      if settledNodes < maxSettledNodes && !bound.AtMost(Fin(acceptedWeight)) {
        forall p | IsWalk(begun, startNode, targetNode, p) ensures Length(p) > acceptedWeight {
          if Length(p) <= acceptedWeight {
            AllFound(begun, startNode, weights[..], progress, heap.contents, acceptedWeight, targetNode, p);
          }
        }
      }
    }
  }
}
