/** The state of the preparation while nodes are contracted, on values: what handling one pair
    of edges and storing one shortcut keep, and what a whole contraction keeps. */
module ContractionStates {
  import opened Walks
  import opened PrepareGraphs
  import opened CHStorages
  import opened ShortcutTables
  import opened Contraction

  ghost function Core(t: Tables): Graph {
    Arcs(t.edges, t.out)
  }

  /** The arcs lead between nodes not contracted yet, and v. */
  ghost predicate Live(levels: seq<int>, v: int, g: Graph) {
    forall a :: a in g ==> Remaining(levels, v, a.from) && Remaining(levels, v, a.to)
  }

  ghost predicate Remaining(levels: seq<int>, v: int, u: int) {
    0 <= u < |levels| && (u == v || levels[u] == |levels|)
  }

  /** Node v is being contracted; before that, the graph was g0. */
  ghost predicate Working(t: Tables, v: int, g0: Graph, levels: seq<int>) {
    && TablesOk(t, v) && 0 <= v < |t.out| && |t.out| == |levels|
    && Contracting(g0, Core(t), v) && Live(levels, v, Core(t))
  }

  ghost predicate SameAt(t: Tables, t': Tables, v: int) {
    && |t'.out| == |t.out| && |t'.into| == |t.into| && 0 <= v < |t.out| && v < |t.into|
    && t'.out[v] == t.out[v] && t'.into[v] == t.into[v]
    && t'.base == t.base && t'.shortcutFor == t.shortcutFor && t'.shortcuts == t.shortcuts
    && forall id :: t.AtNode(v, id) ==> id in t.edges && id in t'.edges && t'.edges[id] == t.edges[id]
  }

  ghost predicate IsPair(t: Tables, v: int, i: int, o: int) {
    && Listed(t.into, v, i) && OpenAt(t.edges, |t.out|, v, i, true)
    && Listed(t.out, v, o) && OpenAt(t.edges, |t.out|, v, o, false)
  }

  lemma PairOk(t: Tables, v: int, i: int, o: int)
    requires ListsOk(t.edges, t.out, t.into) && Listed(t.into, v, i) && Listed(t.out, v, o)
    ensures IsPair(t, v, i, o)
    ensures ArrivingArc(t.edges, v, i) in Core(t) && LeavingArc(t.edges, v, o) in Core(t)
  {
    ArrivingIsArc(t.edges, t.out, t.into, v, i);
  }

  ghost predicate PairDone(t: Tables, v: int, i: int, o: int) {
    IsPair(t, v, i, o) && Bypassed(Around(Core(t), v), ArrivingArc(t.edges, v, i), LeavingArc(t.edges, v, o))
  }

  /** The shortcut over edge i into v and edge o out of v. */
  function Over(edges: EdgeTable, v: int, i: int, o: int): PrepareEdge
    requires i in edges && o in edges && edges[i].WeightAt(v, true).Fin? && edges[o].WeightAt(v, false).Fin?
  {
    PrepareEdge(edges[i].Adj(v), edges[o].Adj(v), Fin(edges[i].WeightAt(v, true).value + edges[o].WeightAt(v, false).value), Inf, i, o,
                edges[i].origEdgeCount + edges[o].origEdgeCount)
  }

  /** The graph changed to t' under the contraction of v. */
  ghost predicate Grown(t: Tables, t': Tables, v: int, g0: Graph, levels: seq<int>) {
    Working(t', v, g0, levels) && SameAt(t, t', v) && Dominates(Around(Core(t'), v), Around(Core(t), v))
  }

  /** And now it bypasses the pair of i and o. */
  ghost predicate PairHandled(t: Tables, t': Tables, v: int, i: int, o: int, g0: Graph, levels: seq<int>) {
    Grown(t, t', v, g0, levels) && PairDone(t', v, i, o)
  }

  ghost predicate IsShortcutTo(t: Tables, from: int, to: int, id: int) {
    id in t.edges && id >= |t.base| && t.edges[id].Adj(from) == to
  }

  /** The first shortcut from one node to another in the list of the node, or that there is none. */
  ghost predicate IsFirst(t: Tables, from: int, to: int, id: int) {
    && 0 <= from < |t.out|
    && if id == NO_EDGE then forall x :: x in t.out[from] ==> !IsShortcutTo(t, from, to, x)
       else exists k {:trigger t.out[from][k]} :: 0 <= k < |t.out[from]| && t.out[from][k] == id && IsShortcutTo(t, from, to, id)
                && forall j :: 0 <= j < k ==> !IsShortcutTo(t, from, to, t.out[from][j])
  }

  /** The tables once a shortcut was added for the pair, or the one that is there was made lighter,
      or was light enough. */
  ghost predicate Offered(t: Tables, t': Tables, v: int, i: int, o: int, next: int, id: int)
    requires IsPair(t, v, i, o)
  {
    var e := Over(t.edges, v, i, o);
    && IsFirst(t, e.nodeA, e.nodeB, id) && |t.into| == |t.out|
    && t' == (if id == NO_EDGE then t.(edges := t.edges[next := e], out := Prepend(t.out, e.nodeA, next), into := Prepend(t.into, e.nodeB, next))
              else if id in t.edges && !t.edges[id].WeightAt(e.nodeA, false).AtMost(e.weightAB) then t.(edges := t.edges[id := e])
              else t)
  }

  /** Every walk around is heavier than the pair. */
  ghost predicate NoDetour(begun: Graph, e: PrepareEdge)
    requires e.weightAB.Fin?
  {
    forall p :: IsWalk(begun, e.nodeA, e.nodeB, p) ==> Length(p) > e.weightAB.value
  }

  lemma SameAtTouching(t: Tables, t': Tables, v: int, id: int, e: PrepareEdge)
    requires ListsOk(t.edges, t.out, t.into) && 0 <= v < |t.out|
    requires t' == t.(edges := t.edges[id := e], out := t'.out, into := t'.into)
    requires |t'.out| == |t.out| && |t'.into| == |t.into| && t'.out[v] == t.out[v] && t'.into[v] == t.into[v]
    requires id in t.edges ==> t.edges[id].nodeA != v && t.edges[id].nodeB != v
    ensures SameAt(t, t', v)
  {
    forall x | t.AtNode(v, x) ensures x in t.edges && x in t'.edges && t'.edges[x] == t.edges[x] {
      AtNodeTouches(t, v, x);
    }
  }

  lemma Unchanged(t: Tables, v: int, g0: Graph, levels: seq<int>)
    requires Working(t, v, g0, levels)
    ensures Grown(t, t, v, g0, levels)
  {
    DominatesItself(Around(Core(t), v));
    forall x | t.AtNode(v, x) ensures x in t.edges {
      AtNodeTouches(t, v, x);
    }
  }

  lemma OverSkips(t: Tables, v: int, i: int, o: int, id: int)
    requires IsPair(t, v, i, o) && t.edges[i].Adj(v) != t.edges[o].Adj(v) && id != i && id != o
    ensures SkipsOk(t.edges[id := Over(t.edges, v, i, o)], id)
  {
  }

  /** A new shortcut bypasses the pair. */
  lemma PairAdded(t: Tables, v: int, i: int, o: int, g0: Graph, levels: seq<int>, id: int, t': Tables)
    requires Working(t, v, g0, levels) && IsPair(t, v, i, o)
    requires t.edges[i].Adj(v) != t.edges[o].Adj(v) && id !in t.edges && id >= |t.base|
    requires var e := Over(t.edges, v, i, o);
             && t' == t.(edges := t.edges[id := e], out := Prepend(t.out, e.nodeA, id), into := Prepend(t.into, e.nodeB, id))
             && ListsOk(t'.edges, t'.out, t'.into)
             && Core(t') == Core(t) + iset{Arc(id, e.nodeA, e.nodeB, e.weightAB.value)}
    ensures PairHandled(t, t', v, i, o, g0, levels)
  {
    var e := Over(t.edges, v, i, o);
    PairOk(t, v, i, o);
    OverSkips(t, v, i, o, id);
    AddedOk(t, v, id, e, t');
    SameAtTouching(t, t', v, id, e);
    ShortcutStep(g0, Core(t), Core(t'), v, ArrivingArc(t.edges, v, i), LeavingArc(t.edges, v, o),
                 Arc(id, e.nodeA, e.nodeB, e.weightAB.value), iset{});
    PairOk(t', v, i, o);
  }

  /** A lighter way over v takes the place of what a shortcut led over before. */
  lemma PairReplaced(t: Tables, v: int, i: int, o: int, g0: Graph, levels: seq<int>, id: int, t': Tables)
    requires Working(t, v, g0, levels) && IsPair(t, v, i, o) && t.edges[i].Adj(v) != t.edges[o].Adj(v)
    requires var e := Over(t.edges, v, i, o);
             && id in t.edges && id >= |t.base| && t.edges[id].nodeA == e.nodeA && t.edges[id].nodeB == e.nodeB
             && Listed(t.out, e.nodeA, id) && t.edges[id].weightAB.Fin? && e.weightAB.value <= t.edges[id].weightAB.value
             && t' == t.(edges := t.edges[id := e]) && ListsOk(t'.edges, t'.out, t'.into)
             && Core(t') == Core(t) - iset{LeavingArc(t.edges, e.nodeA, id)} + iset{Arc(id, e.nodeA, e.nodeB, e.weightAB.value)}
    ensures PairHandled(t, t', v, i, o, g0, levels)
  {
    var e := Over(t.edges, v, i, o);
    PairOk(t, v, i, o);
    OverSkips(t, v, i, o, id);
    ReplacedOk(t, v, id, e, t');
    SameAtTouching(t, t', v, id, e);
    ShortcutStep(g0, Core(t), Core(t'), v, ArrivingArc(t.edges, v, i), LeavingArc(t.edges, v, o),
                 Arc(id, e.nodeA, e.nodeB, e.weightAB.value), iset{LeavingArc(t.edges, e.nodeA, id)});
    PairOk(t', v, i, o);
  }

  /** A shortcut or a witness that is no heavier bypasses the pair as it is. */
  lemma PairWitnessed(t: Tables, v: int, i: int, o: int, g0: Graph, levels: seq<int>, w: real)
    requires Working(t, v, g0, levels) && IsPair(t, v, i, o)
    requires var e := Over(t.edges, v, i, o);
             Reaches(Around(Core(t), v), e.nodeA, e.nodeB, w) && w <= e.weightAB.value
    ensures PairHandled(t, t, v, i, o, g0, levels)
  {
    Unchanged(t, v, g0, levels);
    var e := Over(t.edges, v, i, o);
    ReachesLonger(Around(Core(t), v), e.nodeA, e.nodeB, w, e.weightAB.value);
  }

  /** The pairs of the given edges into and out of v are bypassed. */
  ghost predicate PairsDone(t: Tables, v: int, ins: seq<int>, outs: seq<int>) {
    forall i, o {:trigger PairDone(t, v, i, o)} :: i in ins && o in outs ==> PairDone(t, v, i, o)
  }

  lemma PairsKept(t: Tables, t': Tables, v: int, ins: seq<int>, outs: seq<int>)
    requires PairsDone(t, v, ins, outs) && SameAt(t, t', v)
    requires ListsOk(t'.edges, t'.out, t'.into) && Dominates(Around(Core(t'), v), Around(Core(t), v))
    ensures PairsDone(t', v, ins, outs)
  {
    DominatesCovers(Around(Core(t'), v), Around(Core(t), v));
    forall i, o | i in ins && o in outs ensures PairDone(t', v, i, o) {
      assert PairDone(t, v, i, o);
      PairOk(t', v, i, o);
      BypassedCovered(Around(Core(t'), v), Around(Core(t), v), ArrivingArc(t.edges, v, i), LeavingArc(t.edges, v, o));
    }
  }

  lemma PairsStep(t: Tables, t': Tables, v: int, i: int, outs: seq<int>, j: nat, g0: Graph, levels: seq<int>)
    requires j < |outs| && PairsDone(t, v, [i], outs[..j]) && PairHandled(t, t', v, i, outs[j], g0, levels)
    ensures PairsDone(t', v, [i], outs[..j + 1])
  {
    PairsKept(t, t', v, [i], outs[..j]);
    forall x, o | x in [i] && o in outs[..j + 1] ensures PairDone(t', v, x, o) {
      assert x == i && (o in outs[..j] || o == outs[j]);
    }
  }

  lemma PairsJoin(t: Tables, t': Tables, v: int, ins: seq<int>, j: nat, outs: seq<int>, g0: Graph, levels: seq<int>)
    requires j < |ins| && PairsDone(t, v, ins[..j], outs) && PairsDone(t', v, [ins[j]], outs) && Grown(t, t', v, g0, levels)
    ensures PairsDone(t', v, ins[..j + 1], outs)
  {
    PairsKept(t, t', v, ins[..j], outs);
    forall i, o | i in ins[..j + 1] && o in outs ensures PairDone(t', v, i, o) {
      assert i in ins[..j] || i in [ins[j]];
    }
  }

  lemma GrownTransitive(t: Tables, t1: Tables, t2: Tables, v: int, g0: Graph, levels: seq<int>)
    requires Grown(t, t1, v, g0, levels) && Grown(t1, t2, v, g0, levels)
    ensures Grown(t, t2, v, g0, levels)
  {
    DominatesTransitive(Around(Core(t2), v), Around(Core(t1), v), Around(Core(t), v));
    forall id | t.AtNode(v, id) ensures id in t.edges && id in t2.edges && t2.edges[id] == t.edges[id] {
      assert t1.AtNode(v, id);
    }
  }

  /** The shortcuts collected for storage: each is one of v to a node above it. */
  ghost predicate AllCollected(t: Tables, v: int, levels: seq<int>, scs: seq<NodeBasedShortcut>) {
    forall k {:trigger scs[k]} :: 0 <= k < |scs| ==> Collected(t, v, scs[k]) && Above(levels, v, scs[k].to)
  }

  ghost predicate HasFwd(scs: seq<NodeBasedShortcut>, id: int) {
    exists k :: 0 <= k < |scs| && scs[k].fwd && scs[k].prepareEdgeFwd == id
  }

  ghost predicate HasBwd(scs: seq<NodeBasedShortcut>, id: int) {
    exists k :: 0 <= k < |scs| && scs[k].bwd && scs[k].prepareEdgeBwd == id
  }

  /** The shortcuts among the given edges are collected. */
  ghost predicate OutDone(edges: nat, scs: seq<NodeBasedShortcut>, ids: seq<int>) {
    forall id :: id in ids && id >= edges ==> HasFwd(scs, id)
  }

  ghost predicate InDone(edges: nat, scs: seq<NodeBasedShortcut>, ids: seq<int>) {
    forall id :: id in ids && id >= edges ==> HasBwd(scs, id)
  }

  lemma AppendedOut(edges: nat, scs: seq<NodeBasedShortcut>, sc: NodeBasedShortcut, ids: seq<int>, k: nat)
    requires k < |ids| && OutDone(edges, scs, ids[..k]) && sc.fwd && sc.prepareEdgeFwd == ids[k]
    ensures OutDone(edges, scs + [sc], ids[..k + 1])
  {
    var scs' := scs + [sc];
    forall id | id in ids[..k + 1] && id >= edges ensures HasFwd(scs', id) {
      if id == ids[k] {
        assert scs'[|scs|] == sc;
      } else {
        assert id in ids[..k] && HasFwd(scs, id);
        var j :| 0 <= j < |scs| && scs[j].fwd && scs[j].prepareEdgeFwd == id;
        assert scs'[j] == scs[j];
      }
    }
  }

  lemma BaseEdgePassed(edges: nat, scs: seq<NodeBasedShortcut>, ids: seq<int>, k: nat)
    requires k < |ids| && ids[k] < edges
    ensures OutDone(edges, scs, ids[..k]) ==> OutDone(edges, scs, ids[..k + 1])
    ensures InDone(edges, scs, ids[..k]) ==> InDone(edges, scs, ids[..k + 1])
  {
  }

  /** Appending or merging keeps what is collected and adds an edge into v. */
  lemma CollectedMore(edges: nat, scs: seq<NodeBasedShortcut>, scs': seq<NodeBasedShortcut>, outs: seq<int>, ids: seq<int>, k: nat)
    requires k < |ids| && OutDone(edges, scs, outs) && InDone(edges, scs, ids[..k]) && |scs| <= |scs'|
    requires forall j :: 0 <= j < |scs| ==>
               && (scs[j].fwd ==> scs'[j].fwd && scs'[j].prepareEdgeFwd == scs[j].prepareEdgeFwd)
               && (scs[j].bwd ==> scs'[j].bwd && scs'[j].prepareEdgeBwd == scs[j].prepareEdgeBwd)
    requires HasBwd(scs', ids[k])
    ensures OutDone(edges, scs', outs) && InDone(edges, scs', ids[..k + 1])
  {
    forall id | id in outs && id >= edges ensures HasFwd(scs', id) {
      assert HasFwd(scs, id);
      var j :| 0 <= j < |scs| && scs[j].fwd && scs[j].prepareEdgeFwd == id;
      assert scs'[j].fwd;
    }
    forall id | id in ids[..k + 1] && id >= edges ensures HasBwd(scs', id) {
      if id != ids[k] {
        assert id in ids[..k] && HasBwd(scs, id);
        var j :| 0 <= j < |scs| && scs[j].bwd && scs[j].prepareEdgeBwd == id;
        assert scs'[j].bwd;
      }
    }
  }

  // ----- which pairs are counted

  /** The edge into v at place x of its list, and the one out of v at place y. */
  datatype Place = Place(x: int, y: int)

  /** In the order in which pairs are looked at. */
  ghost predicate Earlier(p: Place, x: int, y: int) {
    p.x < x || (p.x == x && p.y < y)
  }

  ghost predicate IsPlace(t: Tables, v: int, p: Place) {
    0 <= v < |t.into| && v < |t.out| && 0 <= p.x < |t.into[v]| && 0 <= p.y < |t.out[v]|
  }

  /** A pair that does not lead back. */
  ghost predicate LeadsOn(t: Tables, v: int, p: Place) {
    IsPlace(t, v, p) && IsPair(t, v, t.into[v][p.x], t.out[v][p.y]) && t.edges[t.into[v][p.x]].Adj(v) != t.edges[t.out[v][p.y]].Adj(v)
  }

  ghost predicate IsCounted(t: Tables, v: int, x: int, y: int, counted: seq<Place>, k: int) {
    0 <= k < |counted| ==> LeadsOn(t, v, counted[k]) && Earlier(counted[k], x, y) && (k > 0 ==> Earlier(counted[k - 1], counted[k].x, counted[k].y))
  }

  ghost predicate CountedOrDone(t: Tables, v: int, x: int, y: int, counted: seq<Place>, p: Place) {
    IsPlace(t, v, p) && Earlier(p, x, y) ==> p in counted || PairDone(t, v, t.into[v][p.x], t.out[v][p.y])
  }

  /** Of the pairs before a place each of these is counted once, and all others are bypassed. */
  ghost predicate CountedTo(t: Tables, v: int, x: int, y: int, counted: seq<Place>) {
    && (forall k {:trigger IsCounted(t, v, x, y, counted, k)} :: IsCounted(t, v, x, y, counted, k))
    && forall p {:trigger CountedOrDone(t, v, x, y, counted, p)} :: CountedOrDone(t, v, x, y, counted, p)
  }

  /** How many original edges the shortcuts over these pairs stand for. */
  ghost function EdgesOver(t: Tables, v: int, counted: seq<Place>): int {
    if counted == [] then 0 else
      var p := counted[|counted| - 1];
      EdgesOver(t, v, counted[..|counted| - 1])
        + if LeadsOn(t, v, p) then Over(t.edges, v, t.into[v][p.x], t.out[v][p.y]).origEdgeCount else 0
  }

  lemma PairSkipped(t: Tables, v: int, x: int, y: int, counted: seq<Place>)
    requires CountedTo(t, v, x, y, counted) && IsPlace(t, v, Place(x, y)) && PairDone(t, v, t.into[v][x], t.out[v][y])
    ensures CountedTo(t, v, x, y + 1, counted)
  {
    var z := y + 1;
    forall k ensures IsCounted(t, v, x, z, counted, k) {
      assert IsCounted(t, v, x, y, counted, k);
    }
    forall p ensures CountedOrDone(t, v, x, z, counted, p) {
      assert CountedOrDone(t, v, x, y, counted, p);
    }
  }

  lemma PairCounted(t: Tables, v: int, x: int, y: int, counted: seq<Place>)
    requires CountedTo(t, v, x, y, counted) && LeadsOn(t, v, Place(x, y))
    ensures CountedTo(t, v, x, y + 1, counted + [Place(x, y)])
    ensures EdgesOver(t, v, counted + [Place(x, y)]) == EdgesOver(t, v, counted) + Over(t.edges, v, t.into[v][x], t.out[v][y]).origEdgeCount
  {
    var more, z := counted + [Place(x, y)], y + 1;
    assert more[..|counted|] == counted;
    forall k ensures IsCounted(t, v, x, z, more, k) {
      assert IsCounted(t, v, x, y, counted, k) && IsCounted(t, v, x, y, counted, k - 1);
    }
    forall p ensures CountedOrDone(t, v, x, z, more, p) {
      assert CountedOrDone(t, v, x, y, counted, p);
      assert more[|counted|] == Place(x, y);
    }
  }

  lemma RowCounted(t: Tables, v: int, x: int, y: int, counted: seq<Place>)
    requires CountedTo(t, v, x, y, counted) && 0 <= v < |t.out| && y == |t.out[v]|
    ensures CountedTo(t, v, x + 1, 0, counted)
  {
    var z := x + 1;
    forall k ensures IsCounted(t, v, z, 0, counted, k) {
      assert IsCounted(t, v, x, y, counted, k);
    }
    forall p ensures CountedOrDone(t, v, z, 0, counted, p) {
      assert CountedOrDone(t, v, x, y, counted, p);
    }
  }

  // ----- which shortcuts exactly are collected

  /** The shortcuts among the edges of a list, in order. */
  ghost function ShortcutIds(edges: nat, ids: seq<int>): seq<int> {
    if ids == [] then [] else
      ShortcutIds(edges, ids[..|ids| - 1]) + if ids[|ids| - 1] >= edges then [ids[|ids| - 1]] else []
  }

  lemma NextShortcutId(edges: nat, ids: seq<int>, k: nat)
    requires k < |ids|
    ensures ShortcutIds(edges, ids[..k + 1]) == if ids[k] >= edges then ShortcutIds(edges, ids[..k]) + [ids[k]] else ShortcutIds(edges, ids[..k])
  {
    assert ids[..k + 1][..k] == ids[..k];
  }

  ghost predicate IsOutShortcut(t: Tables, v: int, id: int, sc: NodeBasedShortcut) {
    id in t.edges && t.edges[id].WeightAt(v, false).Fin? && sc == OutShortcut(t.edges, v, id)
  }

  ghost predicate IsInShortcut(t: Tables, v: int, id: int, sc: NodeBasedShortcut) {
    id in t.edges && t.edges[id].WeightAt(v, true).Fin? && sc == InShortcut(t.edges, v, id)
  }

  /** These are the given shortcuts out of v, one by one. */
  ghost predicate AreOut(t: Tables, v: int, ids: seq<int>, scs: seq<NodeBasedShortcut>) {
    |scs| == |ids| && forall k {:trigger scs[k]} {:trigger ids[k]} :: 0 <= k < |ids| ==> IsOutShortcut(t, v, ids[k], scs[k])
  }

  lemma OutNext(t: Tables, v: int, ids: seq<int>, scs: seq<NodeBasedShortcut>, id: int)
    requires AreOut(t, v, ids, scs) && id in t.edges && t.edges[id].WeightAt(v, false).Fin?
    ensures AreOut(t, v, ids + [id], scs + [OutShortcut(t.edges, v, id)])
  {
  }

  ghost predicate CanMerge(t: Tables, sc: NodeBasedShortcut, other: NodeBasedShortcut) {
    && t.Settled(sc.skipped1) && t.Settled(sc.skipped2) && t.Settled(other.skipped1) && t.Settled(other.skipped2)
    && Matches(|t.base|, t.shortcutFor, sc, other)
  }

  /** The edges into v that are among what is collected, as often as they are. */
  ghost function BwdIds(scs: seq<NodeBasedShortcut>): multiset<int> {
    if scs == [] then multiset{} else
      BwdIds(scs[..|scs| - 1]) + if scs[|scs| - 1].bwd then multiset{scs[|scs| - 1].prepareEdgeBwd} else multiset{}
  }

  lemma BwdAppended(scs: seq<NodeBasedShortcut>, sc: NodeBasedShortcut)
    ensures BwdIds(scs + [sc]) == BwdIds(scs) + if sc.bwd then multiset{sc.prepareEdgeBwd} else multiset{}
  {
    assert (scs + [sc])[..|scs|] == scs;
  }

  lemma {:induction false} BwdMerged(scs: seq<NodeBasedShortcut>, m: nat, id: int)
    requires m < |scs| && !scs[m].bwd
    ensures BwdIds(scs[m := Merged(scs[m], id)]) == BwdIds(scs) + multiset{id}
  {
    var n := |scs| - 1;
    var scs' := scs[m := Merged(scs[m], id)];
    if m < n {
      BwdMerged(scs[..n], m, id);
      assert scs'[..n] == scs[..n][m := Merged(scs[m], id)];
    } else {
      assert scs'[..n] == scs[..n];
    }
  }

  lemma {:induction false} NoBwd(scs: seq<NodeBasedShortcut>)
    requires forall k {:trigger scs[k]} :: 0 <= k < |scs| ==> !scs[k].bwd
    ensures BwdIds(scs) == multiset{}
  {
    if scs != [] {
      NoBwd(scs[..|scs| - 1]);
    }
  }

  /** To the shortcuts out of v the given ones into v were added, each once: merged with one that
      leads back over the same stored edges as long as there is one, or on its own. */
  ghost predicate AreBoth(t: Tables, v: int, outs: seq<NodeBasedShortcut>, ids: seq<int>, scs: seq<NodeBasedShortcut>) {
    && |outs| <= |scs| && BwdIds(scs) == multiset(ids)
    && (forall k {:trigger FromOutOrIn(t, v, outs, scs, k)} :: FromOutOrIn(t, v, outs, scs, k))
    && forall j, k {:trigger Apart(t, outs, scs, j, k)} :: Apart(t, outs, scs, j, k)
  }

  ghost predicate FromOutOrIn(t: Tables, v: int, outs: seq<NodeBasedShortcut>, scs: seq<NodeBasedShortcut>, k: int) {
    0 <= k < |scs| ==>
      if k < |outs| then scs[k] == outs[k] || scs[k] == Merged(outs[k], scs[k].prepareEdgeBwd)
      else IsInShortcut(t, v, scs[k].prepareEdgeBwd, scs[k])
  }

  ghost predicate Apart(t: Tables, outs: seq<NodeBasedShortcut>, scs: seq<NodeBasedShortcut>, j: int, k: int) {
    0 <= j < |outs| <= k < |scs| ==> !CanMerge(t, scs[j], scs[k])
  }

  lemma NoneIn(t: Tables, v: int, outs: seq<NodeBasedShortcut>, ids: seq<int>)
    requires AreOut(t, v, ids, outs)
    ensures AreBoth(t, v, outs, [], outs)
  {
    forall k | 0 <= k < |outs| ensures !outs[k].bwd {
      assert IsOutShortcut(t, v, ids[k], outs[k]);
    }
    NoBwd(outs);
  }

  lemma InNext(t: Tables, v: int, outs: seq<NodeBasedShortcut>, ids: seq<int>, scs: seq<NodeBasedShortcut>, id: int, m: nat, scs': seq<NodeBasedShortcut>)
    requires AreBoth(t, v, outs, ids, scs) && m <= |scs| && id in t.edges && t.edges[id].WeightAt(v, true).Fin?
    requires forall j {:trigger scs[j]} :: 0 <= j < m ==> !CanMerge(t, scs[j], InShortcut(t.edges, v, id))
    requires m < |scs| ==> CanMerge(t, scs[m], InShortcut(t.edges, v, id))
    requires scs' == if m < |scs| then scs[m := Merged(scs[m], id)] else scs + [InShortcut(t.edges, v, id)]
    ensures AreBoth(t, v, outs, ids + [id], scs')
  {
    if m < |scs| {
      BwdMerged(scs, m, id);
      assert FromOutOrIn(t, v, outs, scs, m);
    } else {
      BwdAppended(scs, InShortcut(t.edges, v, id));
    }
    forall k ensures FromOutOrIn(t, v, outs, scs', k) {
      assert FromOutOrIn(t, v, outs, scs, k);
    }
    forall j, k ensures Apart(t, outs, scs', j, k) {
      assert Apart(t, outs, scs, j, k);
    }
  }

  /** What is stored for the shortcuts that were collected. */
  ghost function StoredAll(scs: seq<NodeBasedShortcut>): seq<Shortcut> {
    seq(|scs|, k requires 0 <= k < |scs| => Stored(scs[k]))
  }

  ghost predicate AllStored(scs: seq<NodeBasedShortcut>, shortcutFor: map<int, int>) {
    forall id :: HasFwd(scs, id) || HasBwd(scs, id) ==> id in shortcutFor
  }

  lemma StoredStep(t: Tables, v: int, levels: seq<int>, scs: seq<NodeBasedShortcut>, k: nat)
    requires k < |scs| && AllCollected(t, v, levels, scs) && AllStored(scs[..k], t.shortcutFor)
    ensures AllCollected(WithStored(t, scs[k]), v, levels, scs) && AllStored(scs[..k + 1], WithStored(t, scs[k]).shortcutFor)
  {
    forall j | 0 <= j < |scs| ensures Collected(WithStored(t, scs[k]), v, scs[j]) && Above(levels, v, scs[j].to) {
      CollectedKept(t, v, scs[k], scs[j]);
    }
    forall id | HasFwd(scs[..k + 1], id) ensures id in WithStored(t, scs[k]).shortcutFor {
      assert HasFwd(scs[..k], id) || (scs[k].fwd && scs[k].prepareEdgeFwd == id);
    }
    forall id | HasBwd(scs[..k + 1], id) ensures id in WithStored(t, scs[k]).shortcutFor {
      assert HasBwd(scs[..k], id) || (scs[k].bwd && scs[k].prepareEdgeBwd == id);
    }
  }

  lemma NeighborsRemain(t: Tables, v: int, levels: seq<int>)
    requires TablesOk(t, v) && Live(levels, v, Core(t))
    ensures forall u :: Adjacent(Core(t), v, u) ==> u != v && Remaining(levels, NO_EDGE, u)
  {
    CoreOk(t, v);
  }

  // ----- a whole contraction

  /** Between contractions: the tables correspond, the remaining arcs lead between nodes not
      contracted yet, and every base walk is routed up, on through them, and down. */
  ghost predicate Prepared(t: Tables, levels: seq<int>, v: int) {
    && TablesOk(t, NO_EDGE) && Live(levels, v, Core(t)) && |t.out| == |levels|
    && Complete(ChArcs(t.base, []), UpArcs(t.base, t.shortcuts, levels), Core(t), DownArcs(t.base, t.shortcuts, levels))
  }

  lemma CoreOk(t: Tables, v: int)
    requires TablesOk(t, v)
    ensures NonNegative(Core(t)) && forall a :: a in Core(t) ==> a.from != a.to
  {
    forall a | a in Core(t) ensures a.weight >= 0.0 && a.from != a.to {
      ArcArrives(t.edges, t.out, t.into, a);
    }
  }

  lemma CompleteMore(base: Graph, up: Graph, core: Graph, down: Graph, up': Graph, down': Graph)
    requires Complete(base, up, core, down) && up <= up' && down <= down'
    ensures Complete(base, up', core, down')
  {
    CoversSubset(up', up);
    CoversSubset(down', down);
    forall s, t, w | Reaches(base, s, t, w) ensures Routed(up', core, down', s, t, w) {
      var x, y, a, b, c :| Via(up, core, down, s, x, y, t, a, b, c) && a + b + c <= w;
      CoversReaches(up', up, s, x, a);
      CoversReaches(down', down, y, t, c);
      assert Via(up', core, down', s, x, y, t, a, b, c);
    }
  }

  lemma MoreShortcuts(base: seq<RoadEdge>, shortcuts: seq<Shortcut>, more: seq<Shortcut>, levels: seq<int>)
    ensures UpArcs(base, shortcuts, levels) <= UpArcs(base, shortcuts + more, levels)
    ensures DownArcs(base, shortcuts, levels) <= DownArcs(base, shortcuts + more, levels)
  {
    assert forall a :: IsChArc(base, shortcuts, a) ==> IsChArc(base, shortcuts + more, a);
  }

  /** The node contracted next gets its level. */
  lemma LevelSet(t: Tables, levels: seq<int>, v: int, levels': seq<int>)
    requires Prepared(t, levels, NO_EDGE) && 0 <= v < |levels| && |levels'| == |levels|
    requires forall u :: 0 <= u < |levels| && u != v ==> levels'[u] == levels[u]
    requires forall u, w :: Above(levels, u, w) ==> Above(levels', u, w)
    ensures Prepared(t, levels', v)
  {
    CompleteMore(ChArcs(t.base, []), UpArcs(t.base, t.shortcuts, levels), Core(t), DownArcs(t.base, t.shortcuts, levels),
                 UpArcs(t.base, t.shortcuts, levels'), DownArcs(t.base, t.shortcuts, levels'));
    forall a | a in Core(t) ensures Remaining(levels', v, a.from) && Remaining(levels', v, a.to) {
      assert Remaining(levels, NO_EDGE, a.from) && Remaining(levels, NO_EDGE, a.to);
    }
  }

  lemma WorkStarts(t: Tables, levels: seq<int>, v: int)
    requires Prepared(t, levels, v) && 0 <= v < |levels|
    ensures Working(t, v, Core(t), levels)
  {
    ContractionStarts(t, v);
    ContractingStart(Core(t), v);
  }

  /** An arc of v that was stored leads up from v or down to it. */
  lemma ArcStored(t: Tables, v: int, levels: seq<int>, a: Arc)
    requires TablesOk(t, v) && Live(levels, v, Core(t)) && Contracted(levels, v) && a in Core(t) && !Avoids(a, v)
    requires a.edge >= |t.base| ==> a.edge in t.shortcutFor
    ensures var c := Arc(t.StoredId(a.edge), a.from, a.to, a.weight);
            if a.from == v then c in UpArcs(t.base, t.shortcuts, levels) else c in DownArcs(t.base, t.shortcuts, levels)
  {
    assert Listed(t.out, a.from, a.edge) && OpenAt(t.edges, |t.out|, a.from, a.edge, false);
    StoredArc(t, v, a.edge, a.from, a.to);
    assert Remaining(levels, v, a.from) && Remaining(levels, v, a.to);
  }

  lemma ArcsStored(t: Tables, v: int, levels: seq<int>)
    requires TablesOk(t, v) && Live(levels, v, Core(t)) && Contracted(levels, v)
    requires forall id :: t.AtNode(v, id) && id >= |t.base| ==> id in t.shortcutFor
    ensures CopiesFrom(UpArcs(t.base, t.shortcuts, levels), Core(t), v)
    ensures CopiesTo(DownArcs(t.base, t.shortcuts, levels), Core(t), v)
  {
    forall a | a in Core(t) && !Avoids(a, v)
      ensures var c := Arc(t.StoredId(a.edge), a.from, a.to, a.weight);
              if a.from == v then c in UpArcs(t.base, t.shortcuts, levels) else c in DownArcs(t.base, t.shortcuts, levels)
      ensures t.Settled(a.edge) && a.from != a.to
    {
      ArcArrives(t.edges, t.out, t.into, a);
      assert t.AtNode(v, a.edge);
      ArcStored(t, v, levels, a);
    }
    forall a | a in Core(t) && a.from == v
      ensures exists c :: c in UpArcs(t.base, t.shortcuts, levels) && c.from == v && c.to == a.to && c.weight == a.weight
    {
      var c := Arc(t.StoredId(a.edge), a.from, a.to, a.weight);
      assert c in UpArcs(t.base, t.shortcuts, levels);
    }
    forall a | a in Core(t) && a.to == v
      ensures exists c :: c in DownArcs(t.base, t.shortcuts, levels) && c.from == a.from && c.to == v && c.weight == a.weight
    {
      var c := Arc(t.StoredId(a.edge), a.from, a.to, a.weight);
      assert c in DownArcs(t.base, t.shortcuts, levels);
    }
  }

  lemma PairsContractible(t: Tables, v: int, g0: Graph, levels: seq<int>)
    requires Working(t, v, g0, levels) && PairsDone(t, v, t.into[v], t.out[v])
    requires NonNegative(g0) && (forall a :: a in g0 ==> a.from != a.to)
    ensures Contractible(g0, Core(t), v)
  {
    forall x, y | x in g0 && y in g0 && x.to == v && y.from == v ensures Bypassed(Around(Core(t), v), x, y) {
      assert x in Core(t) && y in Core(t);
      ArcArrives(t.edges, t.out, t.into, x);
      assert Listed(t.out, v, y.edge);
      assert PairDone(t, v, x.edge, y.edge);
    }
  }

  /** A contraction as a whole: from t0 the pairs were handled (t1), the shortcuts of v stored
      (t2), and v disconnected (t3). */
  lemma NodeContracted(t0: Tables, t1: Tables, t2: Tables, t3: Tables, v: int, levels: seq<int>)
    requires Prepared(t0, levels, v) && Working(t1, v, Core(t0), levels) && PairsDone(t1, v, t1.into[v], t1.out[v])
    requires t1.base == t0.base && t1.shortcuts == t0.shortcuts
    requires TablesOk(t2, v) && Contracted(levels, v)
    requires t2 == t1.(shortcuts := t2.shortcuts, shortcutFor := t2.shortcutFor) && t1.shortcuts <= t2.shortcuts
    requires forall id :: t2.AtNode(v, id) && id >= |t2.base| ==> id in t2.shortcutFor
    requires TablesOk(t3, NO_EDGE) && t3 == t2.(out := t3.out, into := t3.into) && |t3.out| == |t2.out|
    requires Core(t3) == Around(Core(t2), v)
    ensures Prepared(t3, levels, NO_EDGE) && Contractible(Core(t0), Core(t1), v)
    ensures Contracting(Core(t0), Core(t1), v)
  {
    var base, up, down := ChArcs(t0.base, []), UpArcs(t2.base, t2.shortcuts, levels), DownArcs(t2.base, t2.shortcuts, levels);
    CoreOk(t0, NO_EDGE);
    PairsContractible(t1, v, Core(t0), levels);
    ArcsStored(t2, v, levels);
    var more := t2.shortcuts[|t1.shortcuts|..];
    assert t2.shortcuts == t1.shortcuts + more;
    MoreShortcuts(t0.base, t0.shortcuts, more, levels);
    CompleteStep(base, UpArcs(t0.base, t0.shortcuts, levels), Core(t0), DownArcs(t0.base, t0.shortcuts, levels), v, Core(t1), up, down);
    forall a | a in Core(t3) ensures Remaining(levels, NO_EDGE, a.from) && Remaining(levels, NO_EDGE, a.to) {
      assert a in Core(t1) && Remaining(levels, v, a.from) && Remaining(levels, v, a.to);
    }
  }

  /** All in all: the state is prepared for the next contraction, distances are kept, and the
      neighbours are those the node had, none of them contracted. */
  lemma ContractionDone(t0: Tables, t1: Tables, t2: Tables, t3: Tables, v: int, levels: seq<int>)
    requires Prepared(t0, levels, v) && Working(t1, v, Core(t0), levels) && PairsDone(t1, v, t1.into[v], t1.out[v])
    requires t1.base == t0.base && t1.shortcuts == t0.shortcuts
    requires TablesOk(t2, v) && Live(levels, v, Core(t2)) && Contracted(levels, v)
    requires t2 == t1.(shortcuts := t2.shortcuts, shortcutFor := t2.shortcutFor) && t1.shortcuts <= t2.shortcuts
    requires forall id :: t2.AtNode(v, id) && id >= |t2.base| ==> id in t2.shortcutFor
    requires t3 == t2.(out := t3.out, into := t3.into) && ListsOk(t3.edges, t3.out, t3.into) && |t3.out| == |t2.out|
    requires Disconnected(t2.out, t3.out, t2.into, v) && Disconnected(t2.into, t3.into, t2.out, v)
    requires Core(t3) == Around(Core(t2), v)
    ensures Prepared(t3, levels, NO_EDGE)
    ensures forall s, t, d :: s != v && t != v ==> (IsDistance(Core(t3), s, t, d) <==> IsDistance(Core(t0), s, t, d))
    ensures forall u :: Adjacent(Core(t2), v, u) <==> Adjacent(Core(t0), v, u)
    ensures forall u :: Adjacent(Core(t2), v, u) ==> u != v && Remaining(levels, NO_EDGE, u)
  {
    DisconnectedOk(t2, v, t3);
    NodeContracted(t0, t1, t2, t3, v, levels);
    NeighborsRemain(t2, v, levels);
    SameNeighbors(Core(t0), Core(t2), v);
    forall s, t, d | s != v && t != v ensures IsDistance(Core(t3), s, t, d) <==> IsDistance(Core(t0), s, t, d) {
      ContractionKeepsDistances(Core(t0), Core(t1), v, s, t, d);
    }
  }
}
