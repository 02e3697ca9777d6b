/** Contracting a node: every pair of an arriving and a leaving edge gets a shortcut unless a
    witness is found, and the shortcuts of the node itself move to the storage. */
module NodeContractors {
  import opened Walks
  import opened PrepareGraphs
  import opened CHStorages
  import opened ShortcutTables
  import opened Contraction
  import opened ContractionStates
  import opened WitnessSearch
  import opened WitnessTrees

  /** What to do with a pair that no witness bypasses. */
  datatype Handler = CountShortcuts | AddOrUpdateShortcut

  class NodeBasedNodeContractor {
    const graph: CHPreparationGraph
    const storage: CHStorage
    const witnessPathSearcher: NodeBasedWitnessPathSearcher
    ghost const base: seq<RoadEdge>
    const maxPollFactorHeuristic: real
    const maxPollFactorContraction: real
    const edgeDifferenceWeight: real
    const originalEdgesCountWeight: real
    var shortcuts: seq<NodeBasedShortcut>
    var meanDegree: real
    var shortcutsCount: int
    var originalEdgesCount: int
    var addedShortcutsCount: int

    constructor (graph: CHPreparationGraph, storage: CHStorage, ghost base: seq<RoadEdge>, maxPollFactorHeuristic: real,
                 maxPollFactorContraction: real, edgeDifferenceWeight: real, originalEdgesCountWeight: real)
      ensures this.graph == graph && this.storage == storage && this.base == base
      ensures fresh(witnessPathSearcher.Repr) && Ready() && witnessPathSearcher.graph == graph
    {
      this.graph, this.storage, this.base := graph, storage, base;
      this.maxPollFactorHeuristic, this.maxPollFactorContraction := maxPollFactorHeuristic, maxPollFactorContraction;
      this.edgeDifferenceWeight, this.originalEdgesCountWeight := edgeDifferenceWeight, originalEdgesCountWeight;
      witnessPathSearcher := new NodeBasedWitnessPathSearcher(graph);
      shortcuts, shortcutsCount, originalEdgesCount, addedShortcutsCount := [], 0, 0, 0;
      meanDegree := if graph.nodes == 0 then 0.0 else graph.baseEdges as real / graph.nodes as real;
    }

    ghost function Tables(): Tables
      reads graph, storage
    {
      ShortcutTables.Tables(base, graph.edges, graph.out, graph.into, graph.shortcutFor, storage.shortcuts)
    }

    ghost predicate Valid()
      reads graph, storage
    {
      && graph.Valid() && storage.Valid() && witnessPathSearcher.graph == graph
      && |base| == graph.baseEdges && |storage.levels| == graph.nodes
    }

    ghost predicate Contracting(v: int, g0: Graph)
      reads graph, storage
    {
      Valid() && Working(Tables(), v, g0, storage.levels)
    }

    /** The first shortcut between two nodes. */
    method ExistingShortcut(fromNode: int, toNode: int) returns (id: int)
      requires graph.Valid() && 0 <= fromNode < graph.nodes && |base| == graph.baseEdges
      ensures IsFirst(Tables(), fromNode, toNode, id)
      ensures id != NO_EDGE ==> Listed(graph.out, fromNode, id) && graph.edges[id].Adj(fromNode) == toNode && graph.IsShortcut(id)
    {
      var k := 0;
      while k < |graph.out[fromNode]|
        invariant 0 <= k <= |graph.out[fromNode]|
        invariant forall j :: 0 <= j < k ==> !IsShortcutTo(Tables(), fromNode, toNode, graph.out[fromNode][j])
      {
        id := graph.out[fromNode][k];
        assert Listed(graph.out, fromNode, id);
        assert id in graph.edges;
        if graph.edges[id].Adj(fromNode) == toNode && graph.IsShortcut(id) {
          assert IsShortcutTo(Tables(), fromNode, toNode, id);
          return;
        }
        k := k + 1;
      }
      id := NO_EDGE;
    }

    /** What a pair needs a shortcut for. */
    ghost predicate Pair(v: int, i: int, o: int, fromNode: int, toNode: int, weight: real, count: int, g0: Graph)
      reads graph, storage
    {
      && Contracting(v, g0) && IsPair(Tables(), v, i, o) && fromNode != toNode
      && Over(graph.edges, v, i, o) == PrepareEdge(fromNode, toNode, Fin(weight), Inf, i, o, count)
    }

    /** Gives a shortcut for the pair to its start node, unless a shortcut to the target is
        there already; that one is kept, but leads over the pair if this is lighter. */
    method AddOrUpdateShortcut(ghost v: int, fromNode: int, toNode: int, weight: real, outgoingEdge: int, outOrigEdgeCount: int,
                               incomingEdge: int, inOrigEdgeCount: int, ghost g0: Graph) returns (ghost existing: int)
      requires Pair(v, incomingEdge, outgoingEdge, fromNode, toNode, weight, inOrigEdgeCount + outOrigEdgeCount, g0)
      modifies graph`edges, graph`out, graph`into, graph`nextShortcutId
      ensures Valid() && PairHandled(old(Tables()), Tables(), v, incomingEdge, outgoingEdge, g0, storage.levels)
      ensures Offered(old(Tables()), Tables(), v, incomingEdge, outgoingEdge, old(graph.nextShortcutId), existing)
    {
      var id := ExistingShortcut(fromNode, toNode);
      existing := id;
      if id == NO_EDGE {
        AddShortcut(v, fromNode, toNode, weight, incomingEdge, outgoingEdge, inOrigEdgeCount + outOrigEdgeCount, g0);
      } else if weight < graph.edges[id].WeightAt(fromNode, false).value {
        UpdateShortcut(id, v, fromNode, toNode, weight, incomingEdge, outgoingEdge, inOrigEdgeCount + outOrigEdgeCount, g0);
      } else {
        KeepShortcut(id, v, fromNode, toNode, weight, incomingEdge, outgoingEdge, inOrigEdgeCount + outOrigEdgeCount, g0);
      }
    }

    method AddShortcut(ghost v: int, fromNode: int, toNode: int, weight: real, i: int, o: int, count: int, ghost g0: Graph)
      requires Pair(v, i, o, fromNode, toNode, weight, count, g0)
      modifies graph`edges, graph`out, graph`into, graph`nextShortcutId
      ensures Valid() && PairHandled(old(Tables()), Tables(), v, i, o, g0, storage.levels)
      ensures IsFirst(old(Tables()), fromNode, toNode, NO_EDGE) ==> Offered(old(Tables()), Tables(), v, i, o, old(graph.nextShortcutId), NO_EDGE)
    {
      ghost var t := Tables();
      var id := graph.AddShortcut(fromNode, toNode, i, o, weight, count);
      PairAdded(t, v, i, o, g0, storage.levels, id, Tables());
    }

    method UpdateShortcut(id: int, ghost v: int, fromNode: int, toNode: int, weight: real, i: int, o: int, count: int, ghost g0: Graph)
      requires Pair(v, i, o, fromNode, toNode, weight, count, g0)
      requires Listed(graph.out, fromNode, id) && id in graph.edges && graph.edges[id].Adj(fromNode) == toNode && graph.IsShortcut(id)
      requires graph.edges[id].WeightAt(fromNode, false).Fin? && weight < graph.edges[id].WeightAt(fromNode, false).value
      modifies graph`edges
      ensures Valid() && PairHandled(old(Tables()), Tables(), v, i, o, g0, storage.levels)
      ensures IsFirst(old(Tables()), fromNode, toNode, id) ==> Offered(old(Tables()), Tables(), v, i, o, graph.nextShortcutId, id)
    {
      ghost var t := Tables();
      assert PrepareShortcutOk(t, v, id);
      graph.Replace(id, weight, i, o, count);
      PairReplaced(t, v, i, o, g0, storage.levels, id, Tables());
    }

    lemma KeepShortcut(id: int, v: int, fromNode: int, toNode: int, weight: real, i: int, o: int, count: int, g0: Graph)
      requires Pair(v, i, o, fromNode, toNode, weight, count, g0)
      requires Listed(graph.out, fromNode, id) && id in graph.edges && graph.edges[id].Adj(fromNode) == toNode && graph.IsShortcut(id)
      requires graph.edges[id].WeightAt(fromNode, false).Fin? && weight >= graph.edges[id].WeightAt(fromNode, false).value
      ensures PairHandled(Tables(), Tables(), v, i, o, g0, storage.levels)
      ensures IsFirst(Tables(), fromNode, toNode, id) ==> Offered(Tables(), Tables(), v, i, o, graph.nextShortcutId, id)
    {
      var a := LeavingArc(graph.edges, fromNode, id);
      ReachesArc(Around(graph.Graph(), v), a);
      PairWitnessed(Tables(), v, i, o, g0, storage.levels, a.weight);
    }

    /** The witness search owns its own state only. */
    ghost predicate Ready()
      reads witnessPathSearcher, witnessPathSearcher.heap, witnessPathSearcher.Repr
    {
      && witnessPathSearcher.Owned() && witnessPathSearcher.Valid()
      && storage !in witnessPathSearcher.Repr && this !in witnessPathSearcher.Repr
    }

    /** The witness search is about this contraction. */
    ghost predicate Searching(v: int, i: int)
      reads graph, witnessPathSearcher, witnessPathSearcher.heap, witnessPathSearcher.Repr
    {
      && Ready() && witnessPathSearcher.Searching(Around(graph.Graph(), v)) && witnessPathSearcher.ignoreNode == v
      && witnessPathSearcher.Tracking(NO_NODE) && witnessPathSearcher.Counting() && Dominates(Around(graph.Graph(), v), witnessPathSearcher.begun)
      && i in graph.edges && witnessPathSearcher.startNode == graph.edges[i].Adj(v)
    }

    /** The search for detours has come to the other end of the pair with no more than its weight. */
    ghost predicate Witnessed(e: PrepareEdge)
      reads witnessPathSearcher.weights
    {
      0 <= e.nodeB < witnessPathSearcher.weights.Length && witnessPathSearcher.weights[e.nodeB].AtMost(e.weightAB)
    }

    /** Skips a pair that leads back or has a witness, and hands on the others. */
    method HandlePair(node: int, i: int, o: int, handler: Handler, maxVisitedNodes: int, ghost g0: Graph) returns (ghost skipped: bool, ghost existing: int)
      requires Contracting(node, g0) && IsPair(Tables(), node, i, o) && Searching(node, i)
      modifies graph`edges, graph`out, graph`into, graph`nextShortcutId, witnessPathSearcher.Repr, this`shortcutsCount, this`originalEdgesCount
      ensures Valid() && Grown(old(Tables()), Tables(), node, g0, storage.levels) && Searching(node, i)
      ensures skipped || handler.AddOrUpdateShortcut? ==> PairDone(Tables(), node, i, o)
      ensures handler.CountShortcuts? ==> Tables() == old(Tables()) && graph.nextShortcutId == old(graph.nextShortcutId)
      ensures witnessPathSearcher.Extended()
      ensures var e := old(Over(graph.edges, node, i, o));
              && (skipped <==> e.nodeA == e.nodeB || Witnessed(e))
              && (!skipped && witnessPathSearcher.settledNodes < maxVisitedNodes ==> NoDetour(witnessPathSearcher.begun, e))
      ensures skipped ==> Tables() == old(Tables()) && SameCounts()
      ensures !skipped ==> HandedOn(node, i, o, handler, existing)
    {
      ghost var t, e := Tables(), Over(graph.edges, node, i, o);
      skipped, existing := true, NO_EDGE;
      if graph.edges[i].Adj(node) == graph.edges[o].Adj(node) {
        Unchanged(Tables(), node, g0, storage.levels);
        return;
      }
      var bypassed := HasWitness(node, i, o, maxVisitedNodes, g0);
      assert Tables() == t && Over(graph.edges, node, i, o) == e;
      if !bypassed {
        skipped := false;
        existing := HandleOver(node, i, o, handler, g0);
      }
    }

    twostate predicate SameCounts()
      reads this
    {
      shortcutsCount == old(shortcutsCount) && originalEdgesCount == old(originalEdgesCount)
    }

    /** The pair was counted, or a shortcut over it was offered to the graph. */
    twostate predicate HandedOn(node: int, i: int, o: int, handler: Handler, existing: int)
      requires old(IsPair(Tables(), node, i, o))
      reads this, graph, storage
    {
      if handler.CountShortcuts?
      then Tables() == old(Tables()) && shortcutsCount == old(shortcutsCount) + 1
           && originalEdgesCount == old(originalEdgesCount) + old(Over(graph.edges, node, i, o)).origEdgeCount
      else Offered(old(Tables()), Tables(), node, i, o, old(graph.nextShortcutId), existing) && SameCounts()
    }

    method HandleOver(node: int, i: int, o: int, handler: Handler, ghost g0: Graph) returns (ghost existing: int)
      requires Contracting(node, g0) && IsPair(Tables(), node, i, o) && Searching(node, i)
      requires graph.edges[i].Adj(node) != graph.edges[o].Adj(node)
      modifies graph`edges, graph`out, graph`into, graph`nextShortcutId, this`shortcutsCount, this`originalEdgesCount
      ensures Valid() && Grown(old(Tables()), Tables(), node, g0, storage.levels) && Searching(node, i)
      ensures handler.AddOrUpdateShortcut? ==> PairDone(Tables(), node, i, o)
      ensures handler.CountShortcuts? ==> Tables() == old(Tables()) && graph.nextShortcutId == old(graph.nextShortcutId)
      ensures HandedOn(node, i, o, handler, existing) && unchanged(witnessPathSearcher, witnessPathSearcher.weights)
    {
      match handler
      case CountShortcuts =>
        Unchanged(Tables(), node, g0, storage.levels);
        existing := NO_EDGE;
        shortcutsCount := shortcutsCount + 1;
        originalEdgesCount := originalEdgesCount + graph.edges[i].origEdgeCount + graph.edges[o].origEdgeCount;
      case AddOrUpdateShortcut =>
        existing := HandleShortcut(node, i, o, g0);
    }

    /** Whether the witness search finds a way around the node that is no heavier than the pair. */
    method HasWitness(node: int, i: int, o: int, maxVisitedNodes: int, ghost g0: Graph) returns (bypassed: bool)
      requires Contracting(node, g0) && IsPair(Tables(), node, i, o) && Searching(node, i)
      requires graph.edges[i].Adj(node) != graph.edges[o].Adj(node)
      modifies witnessPathSearcher.Repr
      ensures Searching(node, i) && (bypassed ==> PairHandled(Tables(), Tables(), node, i, o, g0, storage.levels))
      ensures bypassed <==> Witnessed(Over(graph.edges, node, i, o))
      ensures !bypassed && witnessPathSearcher.settledNodes < maxVisitedNodes ==> NoDetour(witnessPathSearcher.begun, Over(graph.edges, node, i, o))
      ensures Valid() && Tables() == old(Tables()) && graph.nextShortcutId == old(graph.nextShortcutId) && storage.levels == old(storage.levels)
      ensures witnessPathSearcher.Extended() && SameCounts()
    {
      var toNode := graph.edges[o].Adj(node);
      var existingDirectWeight := graph.edges[i].WeightAt(node, true).value + graph.edges[o].WeightAt(node, false).value;
      ghost var t := Tables();
      var bound := witnessPathSearcher.FindUpperBound(toNode, existingDirectWeight, maxVisitedNodes, Around(graph.Graph(), node));
      assert Tables() == t && storage.levels == old(storage.levels);
      bypassed := bound.AtMost(Fin(existingDirectWeight));
      if bypassed {
        PairWitnessed(Tables(), node, i, o, g0, storage.levels, bound.value);
      }
    }

    method HandleShortcut(node: int, i: int, o: int, ghost g0: Graph) returns (ghost existing: int)
      requires Contracting(node, g0) && IsPair(Tables(), node, i, o) && Searching(node, i)
      requires graph.edges[i].Adj(node) != graph.edges[o].Adj(node)
      modifies graph`edges, graph`out, graph`into, graph`nextShortcutId
      ensures Valid() && PairHandled(old(Tables()), Tables(), node, i, o, g0, storage.levels) && Searching(node, i)
      ensures Offered(old(Tables()), Tables(), node, i, o, old(graph.nextShortcutId), existing)
    {
      ghost var t := Tables();
      var weight := graph.edges[i].WeightAt(node, true).value + graph.edges[o].WeightAt(node, false).value;
      existing := AddOrUpdateShortcut(node, graph.edges[i].Adj(node), graph.edges[o].Adj(node), weight, o, graph.edges[o].origEdgeCount,
                                      i, graph.edges[i].origEdgeCount, g0);
      assert witnessPathSearcher.Searching(Around(Core(t), node));
      witnessPathSearcher.GoesOn(Around(Core(Tables()), node), Around(Core(t), node));
    }

    /** The counts are those of the pairs before a place that are counted. */
    ghost predicate Counting(node: int, x: int, y: int, counted: seq<Place>)
      reads this, graph, storage
    {
      && CountedTo(Tables(), node, x, y, counted)
      && shortcutsCount == |counted| && originalEdgesCount == EdgesOver(Tables(), node, counted)
    }

    /** All pairs with one edge into the node, on one witness search. */
    method HandleIncoming(node: int, i: int, handler: Handler, maxVisitedNodes: int, ghost g0: Graph, ghost x: nat, ghost counted: seq<Place>)
      returns (ghost counted': seq<Place>)
      requires Contracting(node, g0) && Listed(graph.into, node, i) && Ready()
      requires x < |graph.into[node]| && graph.into[node][x] == i && (handler.CountShortcuts? ==> Counting(node, x, 0, counted))
      modifies graph`edges, graph`out, graph`into, graph`nextShortcutId, witnessPathSearcher.Repr, this`shortcutsCount, this`originalEdgesCount
      ensures Valid() && Grown(old(Tables()), Tables(), node, g0, storage.levels) && Ready()
      ensures handler.AddOrUpdateShortcut? ==> PairsDone(Tables(), node, [i], graph.out[node])
      ensures handler.CountShortcuts? ==> Tables() == old(Tables()) && graph.nextShortcutId == old(graph.nextShortcutId)
      ensures witnessPathSearcher.Extended()
      ensures handler.CountShortcuts? ==> Counting(node, x + 1, 0, counted')
    {
      ghost var t0 := Tables();
      counted' := counted;
      Unchanged(t0, node, g0, storage.levels);
      StartWitnessSearch(node, i, g0);
      var outs := graph.out[node];
      var j := 0;
      while j < |outs|
        invariant 0 <= j <= |outs| && Valid() && Grown(t0, Tables(), node, g0, storage.levels) && Searching(node, i)
        invariant handler.AddOrUpdateShortcut? ==> PairsDone(Tables(), node, [i], outs[..j])
        invariant handler.CountShortcuts? ==> Tables() == t0 && graph.nextShortcutId == old(graph.nextShortcutId)
        invariant handler.CountShortcuts? ==> Counting(node, x, j, counted')
        invariant witnessPathSearcher.Extended()
      {
        ghost var t := Tables();
        counted' := HandleOutgoing(node, i, outs, j, handler, maxVisitedNodes, g0, x, counted');
        GrownTransitive(t0, t, Tables(), node, g0, storage.levels);
        j := j + 1;
      }
      assert outs[..j] == outs;
      if handler.CountShortcuts? {
        RowCounted(Tables(), node, x, j, counted');
      }
    }

    method HandleOutgoing(node: int, i: int, outs: seq<int>, j: nat, handler: Handler, maxVisitedNodes: int, ghost g0: Graph,
                          ghost x: nat, ghost counted: seq<Place>)
      returns (ghost counted': seq<Place>)
      requires Contracting(node, g0) && Searching(node, i) && Listed(graph.into, node, i) && outs == graph.out[node] && j < |outs|
      requires handler.AddOrUpdateShortcut? ==> PairsDone(Tables(), node, [i], outs[..j])
      requires x < |graph.into[node]| && graph.into[node][x] == i && (handler.CountShortcuts? ==> Counting(node, x, j, counted))
      modifies graph`edges, graph`out, graph`into, graph`nextShortcutId, witnessPathSearcher.Repr, this`shortcutsCount, this`originalEdgesCount
      ensures Valid() && Grown(old(Tables()), Tables(), node, g0, storage.levels) && Searching(node, i)
      ensures handler.AddOrUpdateShortcut? ==> PairsDone(Tables(), node, [i], outs[..j + 1])
      ensures handler.CountShortcuts? ==> Tables() == old(Tables()) && graph.nextShortcutId == old(graph.nextShortcutId)
      ensures witnessPathSearcher.Extended()
      ensures handler.CountShortcuts? ==> Counting(node, x, j + 1, counted')
    {
      ghost var t := Tables();
      PairOk(t, node, i, outs[j]);
      ghost var skipped, _ := HandlePair(node, i, outs[j], handler, maxVisitedNodes, g0);
      counted' := counted;
      if handler.AddOrUpdateShortcut? {
        PairsStep(t, Tables(), node, i, outs, j, g0, storage.levels);
      } else if skipped {
        PairSkipped(t, node, x, j, counted);
      } else {
        PairCounted(t, node, x, j, counted);
        counted' := counted + [Place(x, j)];
      }
    }

    method StartWitnessSearch(node: int, i: int, ghost g0: Graph)
      requires Contracting(node, g0) && Listed(graph.into, node, i) && Ready()
      modifies witnessPathSearcher.Repr
      ensures Valid() && Tables() == old(Tables()) && graph.nextShortcutId == old(graph.nextShortcutId) && storage.levels == old(storage.levels)
      ensures Searching(node, i) && witnessPathSearcher.Extended()
    {
      assert OpenAt(graph.edges, graph.nodes, node, i, true);
      ghost var g := Around(graph.Graph(), node);
      CoreOk(Tables(), node);
      DominatesItself(g);
      witnessPathSearcher.Init(graph.edges[i].Adj(node), node, g);
    }

    /** Handles every way over the node, and returns how many edges lead into it. */
    method FindAndHandleShortcuts(node: int, handler: Handler, maxVisitedNodes: int, ghost g0: Graph) returns (degree: int, ghost counted: seq<Place>)
      requires Contracting(node, g0) && Ready() && (handler.CountShortcuts? ==> shortcutsCount == 0 && originalEdgesCount == 0)
      modifies graph`edges, graph`out, graph`into, graph`nextShortcutId, witnessPathSearcher.Repr, this`shortcutsCount, this`originalEdgesCount
      ensures Valid() && Grown(old(Tables()), Tables(), node, g0, storage.levels) && Ready()
      ensures handler.AddOrUpdateShortcut? ==> PairsDone(Tables(), node, graph.into[node], graph.out[node])
      ensures handler.CountShortcuts? ==> Tables() == old(Tables()) && graph.nextShortcutId == old(graph.nextShortcutId)
      ensures witnessPathSearcher.Extended() && degree == |graph.into[node]|
      ensures handler.CountShortcuts? ==> Counting(node, degree, 0, counted)
    {
      ghost var t0 := Tables();
      counted := [];
      Unchanged(t0, node, g0, storage.levels);
      var ins := graph.into[node];
      degree := 0;
      while degree < |ins|
        invariant 0 <= degree <= |ins| && Valid() && Grown(t0, Tables(), node, g0, storage.levels) && Ready()
        invariant handler.AddOrUpdateShortcut? ==> PairsDone(Tables(), node, ins[..degree], t0.out[node])
        invariant handler.CountShortcuts? ==> Tables() == t0 && graph.nextShortcutId == old(graph.nextShortcutId)
        invariant handler.CountShortcuts? ==> Counting(node, degree, 0, counted)
        invariant witnessPathSearcher.Extended()
      {
        ghost var t := Tables();
        counted := HandleIncoming(node, ins[degree], handler, maxVisitedNodes, g0, degree, counted);
        GrownTransitive(t0, t, Tables(), node, g0, storage.levels);
        if handler.AddOrUpdateShortcut? {
          PairsJoin(t, Tables(), node, ins, degree, t0.out[node], g0, storage.levels);
        }
        degree := degree + 1;
      }
      assert ins[..degree] == ins;
    }

    /** The state in which the shortcuts of the node are stored. */
    ghost predicate Storing(v: int)
      reads graph, storage
    {
      && Valid() && TablesOk(Tables(), v) && Live(storage.levels, v, graph.Graph()) && Contracted(storage.levels, v)
      && forall u :: Contracted(storage.levels, u) ==> storage.levels[u] <= storage.levels[v]
    }

    method InsertOutShortcuts(node: int)
      requires Storing(node) && shortcuts == []
      modifies this`shortcuts
      ensures AllCollected(Tables(), node, storage.levels, shortcuts) && OutDone(|base|, shortcuts, graph.out[node])
      ensures AreOut(Tables(), node, ShortcutIds(|base|, graph.out[node]), shortcuts)
    {
      var outs := graph.out[node];
      var k := 0;
      while k < |outs|
        invariant 0 <= k <= |outs|
        invariant AllCollected(Tables(), node, storage.levels, shortcuts) && OutDone(|base|, shortcuts, outs[..k])
        invariant AreOut(Tables(), node, ShortcutIds(|base|, outs[..k]), shortcuts)
      {
        InsertOutEdge(node, outs, k);
        k := k + 1;
      }
      assert outs[..k] == outs;
    }

    method InsertOutEdge(node: int, outs: seq<int>, k: nat)
      requires Storing(node) && AllCollected(Tables(), node, storage.levels, shortcuts) && outs == graph.out[node] && k < |outs|
      requires OutDone(|base|, shortcuts, outs[..k]) && AreOut(Tables(), node, ShortcutIds(|base|, outs[..k]), shortcuts)
      modifies this`shortcuts
      ensures AllCollected(Tables(), node, storage.levels, shortcuts)
      ensures OutDone(|base|, shortcuts, outs[..k + 1]) && AreOut(Tables(), node, ShortcutIds(|base|, outs[..k + 1]), shortcuts)
    {
      NextShortcutId(|base|, outs, k);
      if graph.IsShortcut(outs[k]) {
        OutCollected(Tables(), node, outs[k]);
        OutNext(Tables(), node, ShortcutIds(|base|, outs[..k]), shortcuts, outs[k]);
        var sc := OutShortcut(graph.edges, node, outs[k]);
        AppendedOut(|base|, shortcuts, sc, outs, k);
        shortcuts := shortcuts + [sc];
      } else {
        BaseEdgePassed(|base|, shortcuts, outs, k);
      }
    }

    /** The first shortcut out of the node that the given one leads back over. */
    method FindMatch(ghost v: int, sc: NodeBasedShortcut) returns (k: nat)
      requires graph.Valid() && |base| == graph.baseEdges && AllCollected(Tables(), v, storage.levels, shortcuts) && Collected(Tables(), v, sc)
      ensures k <= |shortcuts|
      ensures k < |shortcuts| ==> Collected(Tables(), v, shortcuts[k]) && CanMerge(Tables(), shortcuts[k], sc)
      ensures forall j {:trigger shortcuts[j]} :: 0 <= j < k ==> !CanMerge(Tables(), shortcuts[j], sc)
    {
      k := 0;
      while k < |shortcuts| && !Matches(graph.baseEdges, graph.shortcutFor, shortcuts[k], sc)
        invariant 0 <= k <= |shortcuts|
        invariant forall j {:trigger shortcuts[j]} :: 0 <= j < k ==> !CanMerge(Tables(), shortcuts[j], sc)
      {
        k := k + 1;
      }
    }

    method InsertInShortcuts(node: int)
      requires Storing(node) && AllCollected(Tables(), node, storage.levels, shortcuts) && OutDone(|base|, shortcuts, graph.out[node])
      requires AreOut(Tables(), node, ShortcutIds(|base|, graph.out[node]), shortcuts)
      modifies this`shortcuts
      ensures AllCollected(Tables(), node, storage.levels, shortcuts)
      ensures OutDone(|base|, shortcuts, graph.out[node]) && InDone(|base|, shortcuts, graph.into[node])
      ensures AreBoth(Tables(), node, old(shortcuts), ShortcutIds(|base|, graph.into[node]), shortcuts)
    {
      ghost var collected := shortcuts;
      NoneIn(Tables(), node, collected, ShortcutIds(|base|, graph.out[node]));
      var ins := graph.into[node];
      var k := 0;
      while k < |ins|
        invariant 0 <= k <= |ins| && AllCollected(Tables(), node, storage.levels, shortcuts)
        invariant OutDone(|base|, shortcuts, graph.out[node]) && InDone(|base|, shortcuts, ins[..k])
        invariant AreBoth(Tables(), node, collected, ShortcutIds(|base|, ins[..k]), shortcuts)
      {
        InsertInEdge(node, ins, k, collected);
        k := k + 1;
      }
      assert ins[..k] == ins;
    }

    method InsertInEdge(node: int, ins: seq<int>, k: nat, ghost collected: seq<NodeBasedShortcut>)
      requires Storing(node) && AllCollected(Tables(), node, storage.levels, shortcuts) && ins == graph.into[node] && k < |ins|
      requires OutDone(|base|, shortcuts, graph.out[node]) && InDone(|base|, shortcuts, ins[..k])
      requires AreBoth(Tables(), node, collected, ShortcutIds(|base|, ins[..k]), shortcuts)
      modifies this`shortcuts
      ensures AllCollected(Tables(), node, storage.levels, shortcuts)
      ensures OutDone(|base|, shortcuts, graph.out[node]) && InDone(|base|, shortcuts, ins[..k + 1])
      ensures AreBoth(Tables(), node, collected, ShortcutIds(|base|, ins[..k + 1]), shortcuts)
    {
      NextShortcutId(|base|, ins, k);
      if graph.IsShortcut(ins[k]) {
        InsertInShortcut(node, ins, k, collected);
      } else {
        BaseEdgePassed(|base|, shortcuts, ins, k);
      }
    }

    method InsertInShortcut(node: int, ins: seq<int>, k: nat, ghost collected: seq<NodeBasedShortcut>)
      requires Storing(node) && AllCollected(Tables(), node, storage.levels, shortcuts) && ins == graph.into[node] && k < |ins|
      requires ins[k] >= |base| && OutDone(|base|, shortcuts, graph.out[node]) && InDone(|base|, shortcuts, ins[..k])
      requires AreBoth(Tables(), node, collected, ShortcutIds(|base|, ins[..k]), shortcuts)
      modifies this`shortcuts
      ensures AllCollected(Tables(), node, storage.levels, shortcuts)
      ensures OutDone(|base|, shortcuts, graph.out[node]) && InDone(|base|, shortcuts, ins[..k + 1])
      ensures AreBoth(Tables(), node, collected, ShortcutIds(|base|, ins[..k]) + [ins[k]], shortcuts)
    {
      ghost var scs := shortcuts;
      InCollected(Tables(), node, ins[k]);
      var sc := InShortcut(graph.edges, node, ins[k]);
      var m := FindMatch(node, sc);
      if m < |shortcuts| {
        MergedCollected(Tables(), node, shortcuts[m], ins[k]);
        shortcuts := shortcuts[m := Merged(shortcuts[m], ins[k])];
      } else {
        shortcuts := shortcuts + [sc];
      }
      assert shortcuts[m].bwd && shortcuts[m].prepareEdgeBwd == ins[k];
      CollectedMore(|base|, scs, shortcuts, graph.out[node], ins, k);
      InNext(Tables(), node, collected, ShortcutIds(|base|, ins[..k]), scs, ins[k], m, shortcuts);
    }

    /** Stores a collected shortcut and notes which shortcuts of the preparation became it. */
    method Store(sc: NodeBasedShortcut, ghost v: int)
      requires Storing(v) && Collected(Tables(), v, sc) && Above(storage.levels, v, sc.to)
      modifies storage`shortcuts, storage`lastShortcut, graph`shortcutFor
      ensures Storing(v) && Tables() == WithStored(old(Tables()), sc)
    {
      StoreOk(Tables(), v, sc);
      var shortcut := AddToStorage(sc, v);
      SetShortcut(sc, graph.baseEdges + shortcut);
    }

    method AddToStorage(sc: NodeBasedShortcut, ghost v: int) returns (shortcut: int)
      requires Valid() && sc.from == v && Contracted(storage.levels, v) && Above(storage.levels, v, sc.to)
      requires forall u :: Contracted(storage.levels, u) ==> storage.levels[u] <= storage.levels[v]
      modifies storage`shortcuts, storage`lastShortcut
      ensures storage.Valid() && storage.shortcuts == old(storage.shortcuts) + [Stored(sc)] && shortcut == |old(storage.shortcuts)|
    {
      if storage.shortcuts != [] {
        assert ShortcutLeads(storage.levels, storage.shortcuts[|storage.shortcuts| - 1]);
      }
      shortcut := storage.AddShortcutNodeBased(sc.from, sc.to, sc.fwd, sc.bwd, sc.weight, sc.skipped1, sc.skipped2);
    }

    method SetShortcut(sc: NodeBasedShortcut, scEdge: int)
      modifies graph`shortcutFor
      ensures graph.shortcutFor == Became(old(graph.shortcutFor), sc, scEdge)
    {
      if sc.fwd {
        graph.SetShortcutForPrepareEdge(sc.prepareEdgeFwd, scEdge);
      }
      if sc.bwd {
        graph.SetShortcutForPrepareEdge(sc.prepareEdgeBwd, scEdge);
      }
    }

    method StoreAll(ghost v: int)
      requires Storing(v) && AllCollected(Tables(), v, storage.levels, shortcuts)
      modifies storage`shortcuts, storage`lastShortcut, graph`shortcutFor
      ensures Storing(v) && Tables() == old(Tables()).(shortcuts := storage.shortcuts, shortcutFor := graph.shortcutFor)
      ensures storage.shortcuts == old(storage.shortcuts) + StoredAll(shortcuts)
      ensures forall id :: HasFwd(shortcuts, id) || HasBwd(shortcuts, id) ==> id in graph.shortcutFor
    {
      var k := 0;
      while k < |shortcuts|
        invariant 0 <= k <= |shortcuts| && Storing(v) && AllCollected(Tables(), v, storage.levels, shortcuts)
        invariant Tables() == old(Tables()).(shortcuts := storage.shortcuts, shortcutFor := graph.shortcutFor)
        invariant storage.shortcuts == old(storage.shortcuts) + StoredAll(shortcuts[..k])
        invariant AllStored(shortcuts[..k], graph.shortcutFor)
      {
        ghost var t := Tables();
        Store(shortcuts[k], v);
        StoredStep(t, v, storage.levels, shortcuts, k);
        k := k + 1;
      }
      assert shortcuts[..k] == shortcuts;
    }

    method InsertShortcuts(node: int)
      requires Storing(node)
      modifies this`shortcuts, this`addedShortcutsCount, storage`shortcuts, storage`lastShortcut, graph`shortcutFor
      ensures Storing(node) && Tables() == old(Tables()).(shortcuts := storage.shortcuts, shortcutFor := graph.shortcutFor)
      ensures storage.shortcuts == old(storage.shortcuts) + StoredAll(shortcuts)
      ensures addedShortcutsCount == old(addedShortcutsCount) + |shortcuts|
      ensures forall id :: Tables().AtNode(node, id) && id >= |base| ==> id in graph.shortcutFor
    {
      shortcuts := [];
      InsertOutShortcuts(node);
      InsertInShortcuts(node);
      StoreAll(node);
      addedShortcutsCount := addedShortcutsCount + |shortcuts|;
    }

    /** The priority of a node: how many shortcuts its contraction would take, against the
        edges it would remove. The graph stays as it is. */
    method CalculatePriority(node: int) returns (priority: real, ghost counted: seq<Place>)
      requires Valid() && Prepared(Tables(), storage.levels, NO_EDGE) && 0 <= node < graph.nodes && Ready()
      modifies graph`edges, graph`out, graph`into, graph`nextShortcutId, witnessPathSearcher.Repr, this`shortcutsCount, this`originalEdgesCount
      ensures Valid() && Tables() == old(Tables()) && Ready()
      ensures graph.nextShortcutId == old(graph.nextShortcutId) && storage.levels == old(storage.levels)
      ensures witnessPathSearcher.Extended()
      ensures CountedTo(Tables(), node, |graph.into[node]|, 0, counted)
      ensures priority == edgeDifferenceWeight * (|counted| - |graph.out[node]| - |graph.into[node]|) as real
                        + originalEdgesCountWeight * EdgesOver(Tables(), node, counted) as real
    {
      LevelSet(Tables(), storage.levels, node, storage.levels);
      WorkStarts(Tables(), storage.levels, node);
      shortcutsCount, originalEdgesCount := 0, 0;
      var degree;
      degree, counted := FindAndHandleShortcuts(node, Handler.CountShortcuts, (meanDegree * maxPollFactorHeuristic).Floor, graph.Graph());
      var edgeDifference := shortcutsCount - |graph.out[node]| - |graph.into[node]|;
      assert edgeDifference == |counted| - |graph.out[node]| - |graph.into[node]| && originalEdgesCount == EdgesOver(Tables(), node, counted);
      priority := edgeDifferenceWeight * edgeDifference as real + originalEdgesCountWeight * originalEdgesCount as real;
    }

    /** Takes a node out of the graph. No distance between other nodes changes, and every base
        walk stays routed over the hierarchy built so far. */
    method ContractNode(node: int) returns (neighbors: set<int>)
      requires Valid() && Prepared(Tables(), storage.levels, node) && Ready() && Contracted(storage.levels, node)
      requires forall u :: Contracted(storage.levels, u) ==> storage.levels[u] <= storage.levels[node]
      modifies graph, storage`shortcuts, storage`lastShortcut, witnessPathSearcher.Repr, this
      ensures Valid() && Prepared(Tables(), storage.levels, NO_EDGE) && Ready()
      ensures forall s, t, d :: s != node && t != node ==> (IsDistance(graph.Graph(), s, t, d) <==> IsDistance(old(graph.Graph()), s, t, d))
      ensures forall v :: v in neighbors <==> Adjacent(old(graph.Graph()), node, v)
      ensures forall v :: v in neighbors ==> v != node && Remaining(storage.levels, NO_EDGE, v)
      ensures storage.levels == old(storage.levels)
      ensures witnessPathSearcher.Extended()
      ensures meanDegree == (old(meanDegree) * 2.0 + old(|graph.into[node]|) as real) / 3.0
    {
      ghost var t0 := Tables();
      WorkStarts(t0, storage.levels, node);
      var degree, _ := FindAndHandleShortcuts(node, Handler.AddOrUpdateShortcut, (meanDegree * maxPollFactorContraction).Floor, graph.Graph());
      ghost var t1 := Tables();
      InsertShortcuts(node);
      ghost var t2 := Tables();
      meanDegree := (meanDegree * 2.0 + degree as real) / 3.0;
      neighbors := graph.Disconnect(node);
      ContractionDone(t0, t1, t2, Tables(), node, storage.levels);
    }
  }
}
