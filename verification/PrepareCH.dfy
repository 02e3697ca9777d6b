/** The preparation as a whole: nodes are contracted in a given order, or in the order of
    priorities that are brought up to date lazily. */
module PrepareContraction {
  import opened Walks
  import opened PrepareGraphs
  import opened CHStorages
  import opened ShortcutTables
  import opened ContractionStates
  import opened NodeContractors
  import opened Hierarchies
  import opened Unpacking
  import opened MinHeaps
  import opened Orderings

  /** Fills the preparation graph with the arcs of the base graph. */
  method BuildFromGraph(pg: CHPreparationGraph, base: seq<RoadEdge>)
    requires pg.Valid() && pg.edges == map[] && pg.Graph() == iset{} && pg.baseEdges == |base|
    requires forall id {:trigger base[id]} :: 0 <= id < |base| ==> BaseEdgeOk(base[id], pg.nodes)
    modifies pg`edges, pg`out, pg`into
    ensures pg.Valid() && pg.Graph() == ChArcs(base, [])
    ensures forall id :: id in pg.edges ==> 0 <= id < |base| && AgreesWithBase(base, pg.edges, id)
  {
    var i := 0;
    assert forall a :: !IsChArc(base[..0], [], a);
    while i < |base|
      invariant 0 <= i <= |base| && pg.Valid() && pg.Graph() == ChArcs(base[..i], [])
      invariant forall id :: id in pg.edges ==> 0 <= id < i && AgreesWithBase(base, pg.edges, id)
    {
      ghost var edges := pg.edges;
      var e := base[i];
      BaseArcsStep(base, i);
      pg.AddEdge(e.nodeA, e.nodeB, i, e.weightAB, e.weightBA);
      forall id | id in pg.edges ensures 0 <= id < i + 1 && AgreesWithBase(base, pg.edges, id) {
        if id in edges {
          assert AgreesWithBase(base, edges, id);
        }
      }
      i := i + 1;
    }
    assert base[..i] == base;
  }

  ghost predicate BaseEdgeOk(e: RoadEdge, nodes: nat) {
    && e.Links(e.nodeA, e.nodeB) && 0 <= e.nodeA < nodes && 0 <= e.nodeB < nodes
    && (e.weightAB.Fin? ==> e.weightAB.value >= 0.0) && (e.weightBA.Fin? ==> e.weightBA.value >= 0.0)
  }

  ghost function Repr(c: NodeBasedNodeContractor): set<object>
    reads c.witnessPathSearcher
  {
    {c, c.graph, c.storage} + c.witnessPathSearcher.Repr
  }

  /** So many nodes are contracted, and the hierarchy built from them is sound so far. */
  ghost predicate Sound(c: NodeBasedNodeContractor, base: BaseGraph, level: nat)
    reads Repr(c), c.witnessPathSearcher, c.witnessPathSearcher.heap
  {
    && c.Valid() && c.Ready() && c.base == base.edges
    && Prepared(c.Tables(), c.storage.levels, NO_EDGE) && LevelsTaken(c.storage.levels, level)
  }

  ghost function QueueRepr(q: MinHeapWithUpdate): set<object> {
    {q, q.tree, q.positions, q.vals}
  }

  method InitFromGraph(base: BaseGraph) returns (c: NodeBasedNodeContractor)
    requires base.Valid()
    ensures fresh(c) && fresh(c.graph) && fresh(c.storage) && fresh(c.witnessPathSearcher.Repr)
    ensures Sound(c, base, 0) && |c.storage.levels| == |base.adjacency| && NothingContracted(c.storage.levels)
    ensures c.graph.Graph() == ChArcs(base.edges, [])
  {
    var pg := new CHPreparationGraph(|base.adjacency|, |base.edges|);
    BuildFromGraph(pg, base.edges);
    var storage := new CHStorage(|base.adjacency|);
    c := new NodeBasedNodeContractor(pg, storage, base.edges, 5.0, 200.0, 10.0, 1.0);
    PreparedStart(c.Tables(), storage.levels);
    FirstLevel(storage.levels);
  }

  /** Every edge that is in the hierarchy stands for as many base edges there as it counts. */
  ghost predicate Counted(g: CHPreparationGraph, ch: CHGraph)
    reads g
  {
    forall id, u, w {:trigger Connects(ch, MappedId(g.baseEdges, g.shortcutFor, id), u, w)} ::
      id in g.edges && Mapped(g.baseEdges, g.shortcutFor, id) && Connects(ch, MappedId(g.baseEdges, g.shortcutFor, id), u, w) ==>
        |Unfolded(ch, MappedId(g.baseEdges, g.shortcutFor, id), u, w)| == g.edges[id].origEdgeCount
  }

  lemma AllCounted(t: Tables, ch: CHGraph)
    requires TablesOk(t, NO_EDGE) && StoredFrom(t, ch)
    ensures forall id, u, w {:trigger Connects(ch, MappedId(|t.base|, t.shortcutFor, id), u, w)} ::
              id in t.edges && t.Settled(id) && Connects(ch, MappedId(|t.base|, t.shortcutFor, id), u, w) ==>
                |Unfolded(ch, MappedId(|t.base|, t.shortcutFor, id), u, w)| == t.edges[id].origEdgeCount
  {
    FinishedUnpacks(t, ch);
    forall id, u, w | id in t.edges && t.Settled(id) && Connects(ch, MappedId(|t.base|, t.shortcutFor, id), u, w)
      ensures |Unfolded(ch, MappedId(|t.base|, t.shortcutFor, id), u, w)| == t.edges[id].origEdgeCount
    {
      OriginalEdgeCount(t, ch, id, u, w);
    }
  }

  method Start(base: BaseGraph) returns (c: NodeBasedNodeContractor, queue: MinHeapWithUpdate)
    requires base.Valid()
    ensures fresh(c) && fresh(c.graph) && fresh(c.storage) && fresh(c.witnessPathSearcher.Repr)
    ensures Sound(c, base, 0) && |c.storage.levels| == |base.adjacency| && NothingContracted(c.storage.levels)
    ensures c.graph.Graph() == ChArcs(base.edges, []) && queue.Valid() && queue.maxElems == |base.adjacency|
    ensures fresh(queue) && fresh(queue.tree) && fresh(queue.positions) && fresh(queue.vals)
    ensures c.storage !in QueueRepr(queue) && c.graph !in QueueRepr(queue)
    ensures forall o: object :: o in QueueRepr(queue) ==> o !in c.witnessPathSearcher.Repr
  {
    queue := new MinHeapWithUpdate(|base.adjacency|);
    c := InitFromGraph(base);
  }

  ghost predicate NothingContracted(levels: seq<int>) {
    forall u {:trigger levels[u]} :: 0 <= u < |levels| ==> levels[u] == |levels|
  }

  /** The first nodes of the order are contracted, in this order, and the others are not. */
  ghost predicate InOrderUpTo(levels: seq<int>, order: seq<int>, i: nat) {
    && (forall j {:trigger order[j]} :: i <= j < |order| ==> order[j] in Uncontracted(levels))
    && forall j {:trigger order[j]} :: 0 <= j < i && j < |order| ==> 0 <= order[j] < |levels| && levels[order[j]] == j
  }

  lemma OneMoreInOrder(levels: seq<int>, order: seq<int>, i: nat)
    requires InOrderUpTo(levels, order, i) && i < |order| == |levels| && forall i, j :: 0 <= i < j < |order| ==> order[i] != order[j]
    ensures order[i] in Uncontracted(levels) && InOrderUpTo(levels[order[i] := i], order, i + 1)
  {
    var levels' := levels[order[i] := i];
    forall j | 0 <= j < |order|
      ensures if j <= i then 0 <= order[j] < |levels| && levels'[order[j]] == j else order[j] in Uncontracted(levels')
    {
      assert j != i ==> order[j] != order[i];
    }
  }

  class PrepareContractionHierarchies {
    const base: BaseGraph
    const contractor: NodeBasedNodeContractor
    const sortedNodes: MinHeapWithUpdate
    const rules: OrderRules
    var checkCounter: nat

    function Levels(): seq<int>
      reads contractor.storage
    {
      contractor.storage.levels
    }

    /** The graph of the nodes that are left. */
    ghost function Left(): Graph
      reads contractor.graph
    {
      contractor.graph.Graph()
    }

    /** The queue has room for all nodes and shares nothing with the contractor. */
    ghost predicate Apart()
      reads contractor.storage, contractor.witnessPathSearcher
    {
      && sortedNodes.maxElems == |Levels()| && this !in contractor.witnessPathSearcher.Repr
      && contractor.storage !in QueueRepr(sortedNodes) && contractor.graph !in QueueRepr(sortedNodes)
      && forall o: object :: o in QueueRepr(sortedNodes) ==> o !in contractor.witnessPathSearcher.Repr
    }

    constructor (base: BaseGraph, rules: OrderRules)
      requires base.Valid()
      ensures this.base == base && this.rules == rules
      ensures Sound(contractor, base, 0) && Apart() && sortedNodes.Valid()
      ensures fresh(contractor) && fresh(contractor.graph) && fresh(contractor.storage) && fresh(contractor.witnessPathSearcher.Repr)
      ensures fresh(sortedNodes) && fresh(sortedNodes.tree) && fresh(sortedNodes.positions) && fresh(sortedNodes.vals)
      ensures |Levels()| == |base.adjacency| && NothingContracted(Levels()) && Left() == ChArcs(base.edges, [])
    {
      this.base, this.rules, checkCounter := base, rules, 0;
      var c, queue := Start(base);
      contractor, sortedNodes := c, queue;
    }

    /** Gives a node not contracted yet the next level. */
    method SetLevel(node: int, level: nat)
      requires Sound(contractor, base, level) && node in Uncontracted(Levels())
      modifies contractor.storage`levels
      ensures contractor.Valid() && Prepared(contractor.Tables(), Levels(), node) && LevelsTaken(Levels(), level + 1)
      ensures Uncontracted(Levels()) == old(Uncontracted(Levels())) - {node} && Levels() == old(Levels())[node := level]
    {
      NextLevel(Levels(), level, node);
      NewLevelOk(Levels(), contractor.storage.lastShortcut, contractor.storage.shortcuts, node, level);
      LevelSet(contractor.Tables(), Levels(), node, Levels()[node := level]);
      contractor.storage.SetLevel(node, level);
    }

    /** Contracts a node that was not contracted yet. */
    method ContractNode(node: int, level: nat) returns (neighbors: set<int>)
      requires Sound(contractor, base, level) && node in Uncontracted(Levels())
      modifies Repr(contractor)
      ensures Sound(contractor, base, level + 1) && Uncontracted(Levels()) == old(Uncontracted(Levels())) - {node}
      ensures Levels() == old(Levels())[node := level]
      ensures neighbors == NeighborsIn(old(Left()), node, Levels()) && KeepsDistances(old(Left()), Left(), node)
      ensures contractor.witnessPathSearcher.Extended()
    {
      SetLevel(node, level);
      ghost var levels, g := Levels(), Left();
      neighbors := contractor.ContractNode(node);
      assert Levels() == levels;
      forall v | v in neighbors ensures v in Uncontracted(Levels()) {
        assert Remaining(Levels(), NO_EDGE, v);
      }
      AreNeighbors(neighbors, g, node, Levels());
    }

    /** The queue holds exactly the nodes not contracted yet. */
    ghost predicate Queued()
      reads contractor.storage, QueueRepr(sortedNodes)
    {
      sortedNodes.Valid() && sortedNodes.maxElems == |Levels()| && sortedNodes.contents.Keys == Uncontracted(Levels())
    }

    /** The queued nodes whose priority is out of date. */
    ghost function Stale(level: nat): set<int>
      reads sortedNodes
    {
      Outdated(sortedNodes.contents, level)
    }

    ghost function Outdated(values: map<int, real>, level: nat): set<int> {
      set v | v in values && values[v] != rules.priority(level, v)
    }

    /** The state of the order. */
    ghost function State(level: nat, enough: bool): OrderState
      reads contractor.storage, contractor.graph, sortedNodes, this`checkCounter
    {
      OrderState(Levels(), Left(), level, sortedNodes.contents, checkCounter, enough)
    }

    /** The priority of a node not contracted yet. The contractor counts the shortcuts that its
        contraction would take; the value is assumed to depend on the graph only, so on how many
        nodes are contracted. */
    method CalculatePriority(node: int, level: nat) returns (p: real)
      requires Sound(contractor, base, level) && Apart() && sortedNodes.Valid() && node in Uncontracted(Levels())
      modifies Repr(contractor)
      ensures Sound(contractor, base, level) && Apart() && Levels() == old(Levels()) && Left() == old(Left()) && p == rules.priority(level, node)
      ensures sortedNodes.Valid() && sortedNodes.contents == old(sortedNodes.contents) && sortedNodes.size == old(sortedNodes.size)
      ensures contractor.witnessPathSearcher.Extended()
    {
      var _, _ := contractor.CalculatePriority(node);
      p := rules.priority(level, node);
    }

    method PushNode(node: int, p: real, level: nat)
      requires Sound(contractor, base, level) && Apart() && sortedNodes.Valid() && 0 <= node < sortedNodes.maxElems && node !in sortedNodes.contents && sortedNodes.size < sortedNodes.maxElems
      modifies QueueRepr(sortedNodes)
      ensures Sound(contractor, base, level) && Levels() == old(Levels()) && Left() == old(Left())
      ensures Apart() && sortedNodes.Valid() && sortedNodes.contents == old(sortedNodes.contents)[node := p]
    {
      sortedNodes.Push(node, p);
    }

    /** Fills the queue with all remaining nodes and their present priorities. */
    method UpdatePrioritiesOfRemainingNodes(level: nat)
      requires Sound(contractor, base, level) && Apart() && sortedNodes.Valid()
      modifies Repr(contractor), QueueRepr(sortedNodes)
      ensures Sound(contractor, base, level) && Apart() && Queued() && Levels() == old(Levels()) && Left() == old(Left())
      ensures sortedNodes.contents == rules.Present(Uncontracted(Levels()), level)
      ensures contractor.witnessPathSearcher.Extended()
    {
      ClearQueue(level);
      QueueRemaining(level);
      AllOpen(Levels());
    }

    method QueueRemaining(level: nat)
      requires Sound(contractor, base, level) && Apart() && sortedNodes.Valid() && sortedNodes.contents == rules.Present(OpenBelow(Levels(), 0), level)
      modifies Repr(contractor), QueueRepr(sortedNodes)
      ensures Sound(contractor, base, level) && Apart() && sortedNodes.Valid() && Levels() == old(Levels()) && Left() == old(Left())
      ensures sortedNodes.contents == rules.Present(OpenBelow(Levels(), |Levels()|), level)
      ensures contractor.witnessPathSearcher.Extended()
    {
      ghost var levels, g := Levels(), Left();
      var node := 0;
      while node < |Levels()|
        invariant 0 <= node <= |levels| && Levels() == levels && Left() == g && Sound(contractor, base, level) && Apart()
        invariant sortedNodes.Valid() && sortedNodes.contents == rules.Present(OpenBelow(levels, node), level)
        invariant contractor.witnessPathSearcher.Extended()
      {
        QueueNext(node, level);
        node := node + 1;
      }
    }

    lemma AllOpen(levels: seq<int>)
      ensures OpenBelow(levels, |levels|) == Uncontracted(levels)
    {
    }

    method ClearQueue(level: nat)
      requires Sound(contractor, base, level) && Apart() && sortedNodes.Valid()
      modifies QueueRepr(sortedNodes)
      ensures Sound(contractor, base, level) && Levels() == old(Levels()) && Left() == old(Left())
      ensures Apart() && sortedNodes.Valid() && sortedNodes.contents == rules.Present(OpenBelow(Levels(), 0), level)
    {
      sortedNodes.Clear();
    }

    method QueueNext(node: nat, level: nat)
      requires Sound(contractor, base, level) && Apart() && sortedNodes.Valid() && node < |Levels()|
      requires sortedNodes.contents == rules.Present(OpenBelow(Levels(), node), level)
      modifies Repr(contractor), QueueRepr(sortedNodes)
      ensures Sound(contractor, base, level) && Apart() && sortedNodes.Valid() && Levels() == old(Levels()) && Left() == old(Left())
      ensures sortedNodes.contents == rules.Present(OpenBelow(Levels(), node + 1), level)
      ensures contractor.witnessPathSearcher.Extended()
    {
      AddNext(Levels(), node, sortedNodes.contents, level);
      if Levels()[node] == |Levels()| {
        var p := CalculatePriority(node, level);
        PushNode(node, p, level);
      }
    }

    lemma AddNext(levels: seq<int>, node: nat, values: map<int, real>, level: nat)
      requires node < |levels| && values == rules.Present(OpenBelow(levels, node), level)
      ensures |values| < |levels| && node !in values
      ensures (if levels[node] == |levels| then values[node := rules.priority(level, node)] else values) == rules.Present(OpenBelow(levels, node + 1), level)
    {
      OpenBelowSize(levels, node);
      assert values.Keys == OpenBelow(levels, node) && |values| == |values.Keys|;
      OpenBelowNext(levels, node);
      rules.PresentMore(OpenBelow(levels, node), level, node);
    }

    lemma OpenBelowNext(levels: seq<int>, node: nat)
      requires node < |levels|
      ensures OpenBelow(levels, node + 1) == if levels[node] == |levels| then OpenBelow(levels, node) + {node} else OpenBelow(levels, node)
    {
    }

    lemma NoneOutdated(nodes: set<int>, level: nat)
      ensures Outdated(rules.Present(nodes, level), level) == {}
    {
    }

    /** Takes the node of least stored priority out of the queue. When the rest is small and the
        node has become dearer than the next one, it goes back instead. */
    method PollNode(level: nat) returns (node: int, ready: bool)
      requires Sound(contractor, base, level) && Apart() && Queued() && sortedNodes.size > 0
      modifies Repr(contractor), QueueRepr(sortedNodes)
      ensures Sound(contractor, base, level) && Apart() && Levels() == old(Levels()) && Left() == old(Left()) && contractor.witnessPathSearcher.Extended()
      ensures sortedNodes.Valid() && node in Uncontracted(Levels()) && IsLeast(old(sortedNodes.contents), node)
      ensures ready <==> !rules.GoesBack(old(sortedNodes.contents), node, level)
      ensures ready ==> sortedNodes.contents == old(sortedNodes.contents) - {node}
      ensures !ready ==> sortedNodes.contents == old(sortedNodes.contents)[node := rules.priority(level, node)]
      ensures !ready ==> Queued() && |Stale(level)| < |old(Stale(level))|
      ensures checkCounter == old(checkCounter)
    {
      ghost var before := sortedNodes.contents;
      node := TakeNode();
      ghost var rest := sortedNodes.contents;
      rules.LookedAtAgain(before, node, level, rest, sortedNodes.size);
      ready := true;
      if sortedNodes.size > 0 && sortedNodes.size < rules.lastNodesLazyUpdates {
        ready := StillFirst(node, level);
        if !ready {
          WentBack(before, level, node, sortedNodes.contents);
        }
      }
    }

    /** Puts a polled node back when it has become dearer than the next one. */
    method StillFirst(node: int, level: nat) returns (ready: bool)
      requires Sound(contractor, base, level) && Apart() && sortedNodes.Valid() && 0 < sortedNodes.size < sortedNodes.maxElems
      requires node in Uncontracted(Levels()) && node !in sortedNodes.contents
      modifies Repr(contractor), QueueRepr(sortedNodes)
      ensures Sound(contractor, base, level) && Apart() && Levels() == old(Levels()) && Left() == old(Left())
      ensures contractor.witnessPathSearcher.Extended() && checkCounter == old(checkCounter)
      ensures sortedNodes.Valid() && (ready <==> !AboveSome(rules.priority(level, node), old(sortedNodes.contents)))
      ensures sortedNodes.contents == if ready then old(sortedNodes.contents) else old(sortedNodes.contents)[node := rules.priority(level, node)]
    {
      var p, above := ComparedWithNext(node, level);
      if above {
        PushNode(node, p, level);
      }
      ready := !above;
    }

    /** The present priority of a polled node, and whether it is above the least one in the queue. */
    method ComparedWithNext(node: int, level: nat) returns (p: real, above: bool)
      requires Sound(contractor, base, level) && Apart() && sortedNodes.Valid() && sortedNodes.size > 0 && node in Uncontracted(Levels())
      modifies Repr(contractor)
      ensures Sound(contractor, base, level) && Apart() && Levels() == old(Levels()) && Left() == old(Left())
      ensures contractor.witnessPathSearcher.Extended() && checkCounter == old(checkCounter) && sortedNodes.Valid()
      ensures sortedNodes.contents == old(sortedNodes.contents) && sortedNodes.size == old(sortedNodes.size)
      ensures p == rules.priority(level, node) && (above <==> AboveSome(p, sortedNodes.contents))
    {
      p := CalculatePriority(node, level);
      above := p > sortedNodes.PeekValue();
    }

    method TakeNode() returns (node: int)
      requires Apart() && Queued() && sortedNodes.size > 0
      modifies QueueRepr(sortedNodes)
      ensures Apart() && sortedNodes.Valid() && node in old(sortedNodes.contents) && node in Uncontracted(Levels())
      ensures sortedNodes.contents == old(sortedNodes.contents) - {node} && sortedNodes.size < sortedNodes.maxElems
      ensures sortedNodes.size == |old(sortedNodes.contents) - {node}|
      ensures IsLeast(old(sortedNodes.contents), node)
    {
      ghost var before := sortedNodes.contents;
      node := sortedNodes.Poll();
      OneTaken(before, node);
    }

    lemma OneTaken(before: map<int, real>, node: int)
      requires node in before
      ensures |before - {node}| == |before| - 1
    {
      assert before == (before - {node})[node := before[node]];
    }

    /** A node that went back had an outdated priority, and has the present one now. */
    lemma WentBack(before: map<int, real>, level: nat, node: int, after: map<int, real>)
      requires IsLeast(before, node) && AboveSome(rules.priority(level, node), before - {node})
      requires after == (before - {node})[node := rules.priority(level, node)]
      ensures after == before[node := rules.priority(level, node)] && after.Keys == before.Keys
      ensures |Outdated(after, level)| < |Outdated(before, level)|
    {
      assert node in Outdated(before, level);
      assert Outdated(after, level) == Outdated(before, level) - {node};
    }

    /** Brings the priorities of the neighbours that are drawn up to date, until the limit is
        reached. They were not contracted before, so each of them is in the queue. */
    method UpdateNeighbors(neighbors: set<int>, level: nat) returns (ghost updated: set<int>)
      requires Sound(contractor, base, level) && Apart() && Queued() && neighbors <= Uncontracted(Levels())
      modifies Repr(contractor), QueueRepr(sortedNodes)
      ensures Sound(contractor, base, level) && Apart() && Queued() && Levels() == old(Levels()) && Left() == old(Left())
      ensures updated in rules.Choices(neighbors, level)
      ensures sortedNodes.contents == WithFresh(old(sortedNodes.contents), rules.Present(updated, level))
      ensures contractor.witnessPathSearcher.Extended()
    {
      var rest, neighborCount := neighbors, 0;
      ghost var stored := sortedNodes.contents;
      updated := {};
      assert stored == WithFresh(stored, rules.Present({}, level));
      while rest != {}
        invariant Sound(contractor, base, level) && Apart() && Queued() && rest <= neighbors && Levels() == old(Levels()) && Left() == old(Left())
        invariant rules.UpdatedSoFar(neighbors - rest, level, updated) && neighborCount == |updated| && updated !! rest
        invariant sortedNodes.contents == WithFresh(stored, rules.Present(updated, level))
        invariant contractor.witnessPathSearcher.Extended()
        decreases rest
      {
        var neighbor :| neighbor in rest;
        rules.OneMoreNeighbor(neighbors, rest, level, updated, neighbor);
        rest := rest - {neighbor};
        if (rules.maxNeighborUpdates < 0 || neighborCount < rules.maxNeighborUpdates) && rules.drawn(level, neighbor) {
          UpdateNeighbor(neighbor, level);
          rules.StoredOne(stored, updated, level, neighbor);
          neighborCount, updated := neighborCount + 1, updated + {neighbor};
        }
      }
      assert neighbors - rest == neighbors;
    }

    method UpdateNeighbor(neighbor: int, level: nat)
      requires Sound(contractor, base, level) && Apart() && Queued() && neighbor in Uncontracted(Levels())
      modifies Repr(contractor), QueueRepr(sortedNodes)
      ensures Sound(contractor, base, level) && Apart() && Queued() && Levels() == old(Levels()) && Left() == old(Left())
      ensures sortedNodes.contents == old(sortedNodes.contents)[neighbor := rules.priority(level, neighbor)]
      ensures contractor.witnessPathSearcher.Extended()
    {
      var p := CalculatePriority(neighbor, level);
      sortedNodes.Update(neighbor, p);
    }

    /** Contracts the polled node, which is in the queue no more. */
    method ContractOnly(node: int, level: nat) returns (neighbors: set<int>)
      requires Sound(contractor, base, level) && Apart() && node in Uncontracted(Levels())
      requires sortedNodes.Valid() && sortedNodes.contents.Keys == Uncontracted(Levels()) - {node}
      modifies Repr(contractor)
      ensures Sound(contractor, base, level + 1) && Apart() && contractor.witnessPathSearcher.Extended()
      ensures Queued() && Levels() == old(Levels())[node := level] && Uncontracted(Levels()) == old(Uncontracted(Levels())) - {node}
      ensures sortedNodes.contents == old(sortedNodes.contents)
      ensures neighbors == NeighborsIn(old(Left()), node, Levels()) && KeepsDistances(old(Left()), Left(), node)
    {
      neighbors := ContractNode(node, level);
    }

    /** Brings all priorities up to date from time to time. */
    method UpdateFromTimeToTime(level: nat)
      requires Sound(contractor, base, level) && Apart() && Queued() && sortedNodes.size > 0
      modifies Repr(contractor), QueueRepr(sortedNodes), this`checkCounter
      ensures Sound(contractor, base, level) && Apart() && Queued() && sortedNodes.size > 0 && Levels() == old(Levels()) && Left() == old(Left())
      ensures sortedNodes.contents == rules.Polled(old(State(level, false))) && checkCounter == old(checkCounter) + 1
      ensures contractor.witnessPathSearcher.Extended()
      ensures |Stale(level)| <= |old(Stale(level))|
    {
      if rules.IsPeriod(checkCounter) {
        assert |sortedNodes.contents.Keys| > 0;
        UpdatePrioritiesOfRemainingNodes(level);
        assert |sortedNodes.contents.Keys| > 0;
        NoneOutdated(Uncontracted(Levels()), level);
      }
      checkCounter := checkCounter + 1;
    }

    /** Polls the next node, which is one to contract, or goes back. */
    method NextCandidate(level: nat, ghost s: OrderState) returns (node: int, ready: bool)
      requires Sound(contractor, base, level) && Apart() && Queued() && sortedNodes.size > 0 && s == State(level, false)
      modifies Repr(contractor), QueueRepr(sortedNodes), this`checkCounter
      ensures Sound(contractor, base, level) && Apart() && Levels() == s.levels && Left() == s.graph && contractor.witnessPathSearcher.Extended()
      ensures sortedNodes.Valid() && node in Uncontracted(Levels()) && checkCounter == s.counter + 1
      ensures ready ==> sortedNodes.contents.Keys == Uncontracted(Levels()) - {node} && rules.IsTaken(s, node, level, Levels()[node := level], sortedNodes.contents)
      ensures !ready ==> Queued() && |Stale(level)| < |old(Stale(level))| && rules.IsStep(s, State(level, false))
    {
      UpdateFromTimeToTime(level);
      ghost var stored := sortedNodes.contents;
      node, ready := PollNode(level);
      rules.CandidateOrStep(s, node, stored, ready, sortedNodes.contents);
    }

    /** Updates the neighbours of a contracted node, unless few enough nodes are left. */
    method UpdateAfterwards(neighbors: set<int>, level: nat) returns (ghost updated: set<int>)
      requires Sound(contractor, base, level) && Apart() && Queued() && neighbors <= Uncontracted(Levels())
      modifies Repr(contractor), QueueRepr(sortedNodes)
      ensures Sound(contractor, base, level) && Apart() && Queued() && Levels() == old(Levels()) && Left() == old(Left())
      ensures rules.AfterContraction(old(sortedNodes.contents), level, neighbors, updated, sortedNodes.contents)
      ensures contractor.witnessPathSearcher.Extended() && checkCounter == old(checkCounter)
    {
      updated := {};
      if sortedNodes.size >= rules.nodesToAvoidContract {
        updated := UpdateNeighbors(neighbors, level);
      }
    }

    /** The node that was polled in state s has been contracted; its neighbours are updated. */
    method FinishCandidate(node: int, neighbors: set<int>, level: nat, ghost s: OrderState)
      requires Sound(contractor, base, level + 1) && Apart() && Queued()
      requires rules.IsContracted(s, node, level, Levels(), sortedNodes.contents, neighbors, Left())
      requires checkCounter == s.counter + 1 && neighbors <= Uncontracted(Levels())
      modifies Repr(contractor), QueueRepr(sortedNodes)
      ensures Sound(contractor, base, level + 1) && Apart() && Queued() && Levels() == old(Levels())
      ensures contractor.witnessPathSearcher.Extended()
      ensures rules.IsStep(s, State(level + 1, sortedNodes.size < rules.nodesToAvoidContract))
    {
      ghost var rest := sortedNodes.contents;
      ghost var updated := UpdateAfterwards(neighbors, level + 1);
      rules.NodeTaken(s, node, neighbors, level, rest, updated, State(level + 1, sortedNodes.size < rules.nodesToAvoidContract));
    }

    /** The node that was polled in state s is contracted. */
    method ContractCandidate(node: int, level: nat, ghost s: OrderState)
      requires Sound(contractor, base, level) && Apart() && node in Uncontracted(Levels())
      requires sortedNodes.Valid() && sortedNodes.contents.Keys == Uncontracted(Levels()) - {node}
      requires rules.IsTaken(s, node, level, Levels()[node := level], sortedNodes.contents) && checkCounter == s.counter + 1 && s.graph == Left()
      modifies Repr(contractor), QueueRepr(sortedNodes)
      ensures Sound(contractor, base, level + 1) && Apart() && contractor.witnessPathSearcher.Extended()
      ensures Queued() && Levels() == old(Levels())[node := level]
      ensures rules.IsStep(s, State(level + 1, sortedNodes.size < rules.nodesToAvoidContract))
    {
      var neighbors := ContractOnly(node, level);
      rules.TakenAndContracted(s, node, level, Levels(), sortedNodes.contents, neighbors, Left());
      FinishCandidate(node, neighbors, level, s);
    }

    /** One round of the ordering. */
    method NextRound(level: nat) returns (contracted: bool)
      requires Sound(contractor, base, level) && Apart() && Queued() && sortedNodes.size > 0
      modifies Repr(contractor), QueueRepr(sortedNodes), this`checkCounter
      ensures Sound(contractor, base, if contracted then level + 1 else level) && Apart() && Queued()
      ensures |Levels()| == |old(Levels())| && contractor.witnessPathSearcher.Extended()
      ensures if contracted then |Uncontracted(Levels())| < |old(Uncontracted(Levels()))|
              else Levels() == old(Levels()) && |Stale(level)| < |old(Stale(level))|
      ensures rules.IsStep(old(State(level, false)), if contracted then State(level + 1, sortedNodes.size < rules.nodesToAvoidContract) else State(level, false))
    {
      ghost var s := State(level, false);
      var node;
      node, contracted := NextCandidate(level, s);
      if contracted {
        rules.OneFewer(Levels(), node, level);
        ContractCandidate(node, level, s);
      }
    }

    /** As many nodes are left as are to be spared, unless none was contracted yet. */
    ghost predicate EnoughLeft(level: nat)
      reads contractor.storage
    {
      level > 0 ==> |Uncontracted(Levels())| >= rules.nodesToAvoidContract
    }

    /** One round, and whether it leaves fewer nodes than are to be spared. */
    method ContractNext(level: nat) returns (level': nat, enough: bool)
      requires Sound(contractor, base, level) && Apart() && Queued() && sortedNodes.size > 0 && EnoughLeft(level)
      modifies Repr(contractor), QueueRepr(sortedNodes), this`checkCounter
      ensures Sound(contractor, base, level') && Apart() && Queued()
      ensures |Levels()| == |old(Levels())| && contractor.witnessPathSearcher.Extended()
      ensures if level' > level then |Uncontracted(Levels())| < |old(Uncontracted(Levels()))|
              else level' == level && Levels() == old(Levels()) && |Stale(level)| < |old(Stale(level))|
      ensures if enough then |Uncontracted(Levels())| == NodesLeft(|Levels()|, rules.nodesToAvoidContract) else EnoughLeft(level')
      ensures rules.IsStep(old(State(level, false)), State(level', enough))
    {
      var contracted := NextRound(level);
      level' := if contracted then level + 1 else level;
      enough := contracted && sortedNodes.size < rules.nodesToAvoidContract;
    }

    /** Fills the queue for the first time. */
    method StartOrder()
      requires Sound(contractor, base, 0) && Apart() && sortedNodes.Valid() && NothingContracted(Levels())
      modifies Repr(contractor), QueueRepr(sortedNodes), this`checkCounter
      ensures Sound(contractor, base, 0) && Apart() && Queued() && Levels() == old(Levels()) && contractor.witnessPathSearcher.Extended()
      ensures rules.Reaches(Left(), State(0, false)) && Left() == old(Left())
    {
      UpdatePrioritiesOfRemainingNodes(0);
      checkCounter := 0;
      assert rules.Reaches(Left(), State(0, false)) by {
        rules.ReachesStart(State(0, false));
      }
    }

    /** Contracts nodes until none is left, or fewer than are to be spared. Each round contracts
        a node or replaces an outdated priority, so this ends. */
    method ContractRemaining() returns (level: nat)
      requires Sound(contractor, base, 0) && Apart() && Queued() && rules.Reaches(Left(), State(0, false))
      modifies Repr(contractor), QueueRepr(sortedNodes), this`checkCounter
      ensures Sound(contractor, base, level) && |Levels()| == |old(Levels())|
      ensures |Uncontracted(Levels())| == NodesLeft(|Levels()|, rules.nodesToAvoidContract)
      ensures rules.Outcome(old(Left()), Levels())
    {
      level := 0;
      var enough := false;
      ghost var g, s := Left(), State(0, false);
      while !enough && sortedNodes.size > 0
        invariant Sound(contractor, base, level) && Apart() && Queued() && |Levels()| == |old(Levels())|
        invariant contractor.witnessPathSearcher.Extended()
        invariant if enough then |Uncontracted(Levels())| == NodesLeft(|Levels()|, rules.nodesToAvoidContract) else EnoughLeft(level)
        invariant s == State(level, enough) && rules.Reaches(g, s)
        decreases |Uncontracted(Levels())|, |Stale(level)|
      {
        level, enough := ContractNext(level);
        rules.ReachesNext(g, s, State(level, enough));
        s := State(level, enough);
      }
    }

    /** Contracts the nodes in the order of their priorities as far as they are up to date. */
    method ContractNodesUsingHeuristicNodeOrdering() returns (level: nat)
      requires Sound(contractor, base, 0) && Apart() && sortedNodes.Valid() && NothingContracted(Levels())
      modifies Repr(contractor), QueueRepr(sortedNodes), this`checkCounter
      ensures Sound(contractor, base, level) && |Levels()| == |old(Levels())| && rules.Outcome(old(Left()), Levels())
      ensures |Uncontracted(Levels())| == NodesLeft(|Levels()|, rules.nodesToAvoidContract)
      ensures rules.nodesToAvoidContract <= 2 ==> LevelsDiffer(Levels())
    {
      StartOrder();
      level := ContractRemaining();
      if rules.nodesToAvoidContract <= 2 {
        FewLeft(Levels(), level);
      }
    }

    /** Contracts all nodes in the given order. */
    method ContractNodesUsingFixedNodeOrdering(order: seq<int>)
      requires Sound(contractor, base, 0) && |order| == |Levels()|
      requires forall i :: 0 <= i < |order| ==> order[i] in Uncontracted(Levels())
      requires forall i, j :: 0 <= i < j < |order| ==> order[i] != order[j]
      modifies Repr(contractor)
      ensures Sound(contractor, base, |order|) && |Levels()| == |order|
      ensures forall i :: 0 <= i < |order| ==> 0 <= order[i] < |order| && Levels()[order[i]] == i
    {
      var i := 0;
      while i < |order|
        invariant 0 <= i <= |order| == |Levels()| && Sound(contractor, base, i)
        invariant InOrderUpTo(Levels(), order, i) && contractor.witnessPathSearcher.Extended()
      {
        OneMoreInOrder(Levels(), order, i);
        var _ := ContractNode(order[i], i);
        i := i + 1;
      }
    }

    /** The stored hierarchy, once the skipped edges are those of the storage. */
    method FinishContraction() returns (ch: CHGraph)
      requires contractor.Valid() && contractor.base == base.edges && base.Valid() && |Levels()| == |base.adjacency|
      requires Prepared(contractor.Tables(), Levels(), NO_EDGE)
      modifies contractor.storage`shortcuts
      ensures ch.Valid() && ch.base == base && ch.levels == Levels()
      ensures LevelsDiffer(ch.levels) ==> Hierarchical(ch)
      ensures Counted(contractor.graph, ch)
    {
      ghost var t := contractor.Tables();
      AllSettled(t);
      contractor.storage.ReplaceSkippedEdges(contractor.graph.baseEdges, contractor.graph.shortcutFor);
      ch := CHGraph(base, Levels(), contractor.storage.lastShortcut, contractor.storage.shortcuts);
      AllCounted(t, ch);
      assert Counted(contractor.graph, ch);
      if LevelsDiffer(ch.levels) {
        Finished(t, ch);
      }
    }
  }

  /** Prepares a road network in the order of the given priorities. */
  method Prepare(base: BaseGraph, rules: OrderRules) returns (ch: CHGraph)
    requires base.Valid()
    ensures ch.Valid() && ch.base == base && |Uncontracted(ch.levels)| == NodesLeft(|base.adjacency|, rules.nodesToAvoidContract)
    ensures rules.Outcome(ChArcs(base.edges, []), ch.levels)
    ensures rules.nodesToAvoidContract <= 2 ==> Hierarchical(ch)
  {
    var p := new PrepareContractionHierarchies(base, rules);
    var level := p.ContractNodesUsingHeuristicNodeOrdering();
    ch := p.FinishContraction();
  }

  /** Prepares a road network in a fixed order: node order[i] gets level i. */
  method PrepareInOrder(base: BaseGraph, order: seq<int>) returns (ch: CHGraph)
    requires base.Valid() && |order| == |base.adjacency|
    requires forall i :: 0 <= i < |order| ==> 0 <= order[i] < |order|
    requires forall i, j :: 0 <= i < j < |order| ==> order[i] != order[j]
    ensures ch.base == base && Hierarchical(ch)
    ensures |ch.levels| == |order| && forall i :: 0 <= i < |order| ==> ch.levels[order[i]] == i
  {
    var p := new PrepareContractionHierarchies(base, OrderRules((level, node) => 0.0, 0, 0, 0, (level, node) => false, -1));
    p.ContractNodesUsingFixedNodeOrdering(order);
    ch := p.FinishContraction();
    assert Uncontracted(ch.levels) == {};
    LastLevel(ch.levels, |order|);
  }
}
