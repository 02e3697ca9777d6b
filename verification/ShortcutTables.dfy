/** How the shortcuts of the preparation, the shortcuts stored and the base edges correspond
    while nodes are contracted. From this correspondence every stored shortcut can be unpacked. */
module ShortcutTables {
  import opened Walks
  import opened PrepareGraphs
  import opened CHStorages

  datatype Tables = Tables(base: seq<RoadEdge>, edges: EdgeTable, out: EdgeLists, into: EdgeLists,
                           shortcutFor: map<int, int>, shortcuts: seq<Shortcut>)
  {
    ghost predicate Settled(id: int) {
      Mapped(|base|, shortcutFor, id)
    }

    ghost predicate AtNode(v: int, id: int) {
      Listed(out, v, id) || Listed(into, v, id)
    }

    /** A base edge, or an edge that was removed with an earlier node than v. */
    ghost predicate Gone(v: int, id: int) {
      id < |base| || (id in shortcutFor && !AtNode(v, id))
    }

    function StoredId(id: int): int
      requires Mapped(|base|, shortcutFor, id)
    {
      MappedId(|base|, shortcutFor, id)
    }
  }

  ghost predicate AgreesWithBase(base: seq<RoadEdge>, edges: EdgeTable, id: int) {
    id in edges ==>
      && id >= 0
      && (id < |base| ==>
            && edges[id].nodeA == base[id].nodeA && edges[id].nodeB == base[id].nodeB
            && edges[id].weightAB == base[id].weightAB && edges[id].weightBA == base[id].weightBA
            && edges[id].origEdgeCount == 1)
  }

  /** A shortcut leads over a middle node, weighs what its two edges do, and stands for as many
      base edges as they. */
  ghost predicate SkipsOk(edges: EdgeTable, id: int)
    requires id in edges
  {
    var e := edges[id];
    && e.weightAB.Fin? && e.weightBA.Inf? && e.nodeA != e.nodeB
    && e.skipped1 in edges && e.skipped2 in edges
    && e.origEdgeCount == edges[e.skipped1].origEdgeCount + edges[e.skipped2].origEdgeCount
    && var m := edges[e.skipped1].Adj(e.nodeA);
       && edges[e.skipped1].Links(e.nodeA, m) && edges[e.skipped2].Links(m, e.nodeB)
       && edges[e.skipped1].WeightAt(e.nodeA, false).Plus(edges[e.skipped2].WeightAt(m, false)) == e.weightAB
  }

  /** The skipped edge was removed with a contracted node, or it is one of the node v that is
      being contracted and its shortcut is not. */
  ghost predicate SkipSettled(t: Tables, v: int, e: PrepareEdge, skipped: int) {
    t.Gone(v, skipped) || (e.nodeA != v && e.nodeB != v && t.AtNode(v, skipped))
  }

  ghost predicate PrepareShortcutOk(t: Tables, v: int, id: int)
    requires id in t.edges
  {
    && SkipsOk(t.edges, id)
    && SkipSettled(t, v, t.edges[id], t.edges[id].skipped1) && SkipSettled(t, v, t.edges[id], t.edges[id].skipped2)
  }

  /** A stored shortcut offers the arc of the preparation shortcut that became it. */
  ghost predicate StoredOk(t: Tables, id: int) {
    && id in t.edges && id in t.shortcutFor && id >= |t.base|
    && var c, e := t.shortcutFor[id], t.edges[id];
       && |t.base| <= c < |t.base| + |t.shortcuts|
       && EdgeOf(t.base, t.shortcuts, c).Links(e.nodeA, e.nodeB)
       && EdgeOf(t.base, t.shortcuts, c).WeightFrom(e.nodeA) == e.weightAB
  }

  /** A stored shortcut leads over what its preparation shortcut leads over, in one order or, when
      it was stored from its other end, in the opposite one. */
  ghost predicate StoredSkips(t: Tables, v: int, id: int)
    requires StoredOk(t, id)
  {
    var e, sc := t.edges[id], t.shortcuts[t.shortcutFor[id] - |t.base|];
    && t.Gone(v, e.skipped1) && t.Gone(v, e.skipped2) && t.Gone(v, sc.skipped1) && t.Gone(v, sc.skipped2)
    && var a, b, c, d := t.StoredId(e.skipped1), t.StoredId(e.skipped2), t.StoredId(sc.skipped1), t.StoredId(sc.skipped2);
       (a == c && b == d) || (a == d && b == c)
  }

  ghost predicate StoredShortcutOk(t: Tables, v: int, id: int) {
    StoredOk(t, id) && StoredSkips(t, v, id)
  }

  /** A shortcut leads over the older edges c1 and c2, with its weight in each open direction. */
  ghost predicate LeadsOver(base: seq<RoadEdge>, shortcuts: seq<Shortcut>, i: nat, c1: int, c2: int)
    requires i < |shortcuts|
  {
    && 0 <= c1 < |base| + i && 0 <= c2 < |base| + i
    && var sc, e1, e2 := shortcuts[i], EdgeOf(base, shortcuts, c1), EdgeOf(base, shortcuts, c2);
       var m := e1.Other(sc.nodeA);
       && sc.nodeA != sc.nodeB && e1.Links(sc.nodeA, m) && e2.Links(m, sc.nodeB)
       && (sc.fwd ==> e1.WeightFrom(sc.nodeA).Plus(e2.WeightFrom(m)) == Fin(sc.weight))
       && (sc.bwd ==> e2.WeightFrom(sc.nodeB).Plus(e1.WeightFrom(m)) == Fin(sc.weight))
  }

  ghost predicate StoredLeads(t: Tables, v: int, i: nat)
    requires i < |t.shortcuts|
  {
    && t.Gone(v, t.shortcuts[i].skipped1) && t.Gone(v, t.shortcuts[i].skipped2)
    && LeadsOver(t.base, t.shortcuts, i, t.StoredId(t.shortcuts[i].skipped1), t.StoredId(t.shortcuts[i].skipped2))
  }

  /** The invariant of the preparation while node v is being contracted, or between
      contractions when v is no node. */
  ghost predicate TablesOk(t: Tables, v: int) {
    && ListsOk(t.edges, t.out, t.into)
    && (forall id {:trigger AgreesWithBase(t.base, t.edges, id)} :: AgreesWithBase(t.base, t.edges, id))
    && (forall id {:trigger PrepareShortcutOk(t, v, id)} :: id in t.edges && id >= |t.base| ==> PrepareShortcutOk(t, v, id))
    && (forall id {:trigger StoredShortcutOk(t, v, id)} :: id in t.shortcutFor ==> StoredShortcutOk(t, v, id))
    && (forall i {:trigger StoredLeads(t, v, i)} :: 0 <= i < |t.shortcuts| ==> StoredLeads(t, v, i))
    && forall u, id {:trigger Listed(t.out, u, id)} :: Listed(t.out, u, id) && !t.AtNode(v, id) ==> id !in t.shortcutFor
  }

  lemma ContractionStarts(t: Tables, v: int)
    requires TablesOk(t, NO_EDGE) && |t.out| == |t.into|
    ensures TablesOk(t, v)
  {
    forall id | id in t.shortcutFor ensures t.Gone(v, id) {
      if Listed(t.into, v, id) {
        ArrivingIsArc(t.edges, t.out, t.into, v, id);
      }
    }
    forall id | id in t.edges && id >= |t.base| ensures PrepareShortcutOk(t, v, id) {
      assert PrepareShortcutOk(t, NO_EDGE, id);
    }
    forall id | id in t.shortcutFor ensures StoredShortcutOk(t, v, id) {
      assert StoredShortcutOk(t, NO_EDGE, id);
    }
    forall u, id | Listed(t.out, u, id) ensures id !in t.shortcutFor {
      assert !t.AtNode(NO_EDGE, id);
    }
    forall i | 0 <= i < |t.shortcuts| ensures StoredLeads(t, v, i) {
      assert StoredLeads(t, NO_EDGE, i);
    }
  }

  lemma AtNodeTouches(t: Tables, v: int, id: int)
    requires ListsOk(t.edges, t.out, t.into)
    ensures Listed(t.out, v, id) ==> OpenAt(t.edges, |t.out|, v, id, false)
    ensures Listed(t.into, v, id) ==> OpenAt(t.edges, |t.out|, v, id, true)
  {
  }

  /** A new shortcut over two edges of v between two of its neighbours. */
  lemma AddedOk(t: Tables, v: int, id: int, e: PrepareEdge, t': Tables)
    requires TablesOk(t, v) && id !in t.edges && id >= |t.base|
    requires 0 <= v < |t.out| && 0 <= e.nodeA < |t.out| && 0 <= e.nodeB < |t.into| && e.nodeA != v && e.nodeB != v
    requires SkipsOk(t.edges[id := e], id) && t.AtNode(v, e.skipped1) && t.AtNode(v, e.skipped2)
    requires t' == t.(edges := t.edges[id := e], out := Prepend(t.out, e.nodeA, id), into := Prepend(t.into, e.nodeB, id))
    requires ListsOk(t'.edges, t'.out, t'.into)
    ensures TablesOk(t', v)
  {
    PrependListed(t.out, e.nodeA, id);
    PrependListed(t.into, e.nodeB, id);
    assert forall x :: t.AtNode(v, x) <==> t'.AtNode(v, x);
    forall x | x in t'.edges && x >= |t.base| ensures PrepareShortcutOk(t', v, x) {
      if x != id {
        assert PrepareShortcutOk(t, v, x);
      }
    }
    forall x | x in t'.shortcutFor ensures StoredShortcutOk(t', v, x) {
      assert StoredShortcutOk(t, v, x);
    }
    forall i | 0 <= i < |t'.shortcuts| ensures StoredLeads(t', v, i) {
      assert StoredLeads(t, v, i);
    }
    forall x ensures AgreesWithBase(t'.base, t'.edges, x) {
      assert AgreesWithBase(t.base, t.edges, x);
    }
    forall u, x | Listed(t'.out, u, x) && !t'.AtNode(v, x) ensures x !in t'.shortcutFor {
      if x == id {
        assert id in t.shortcutFor ==> StoredShortcutOk(t, v, id);
      } else {
        assert Listed(t.out, u, x);
      }
    }
  }

  /** A shortcut between two neighbours of v leads over two edges of v from now on. */
  lemma ReplacedOk(t: Tables, v: int, id: int, e: PrepareEdge, t': Tables)
    requires TablesOk(t, v) && id in t.edges && id >= |t.base| && 0 <= v < |t.out|
    requires e.nodeA == t.edges[id].nodeA && e.nodeB == t.edges[id].nodeB && e.nodeA != v && e.nodeB != v
    requires Listed(t.out, e.nodeA, id)
    requires SkipsOk(t.edges[id := e], id) && t.AtNode(v, e.skipped1) && t.AtNode(v, e.skipped2)
    requires t' == t.(edges := t.edges[id := e]) && ListsOk(t'.edges, t'.out, t'.into)
    ensures TablesOk(t', v)
  {
    AtNodeTouches(t, v, id);
    assert !t.AtNode(v, id);
    assert id !in t.shortcutFor;
    forall x | x in t'.edges && x >= |t.base| ensures PrepareShortcutOk(t', v, x) {
      if x != id {
        assert PrepareShortcutOk(t, v, x);
      }
    }
    forall x | x in t'.shortcutFor ensures StoredShortcutOk(t', v, x) {
      assert StoredShortcutOk(t, v, x);
    }
    forall i | 0 <= i < |t'.shortcuts| ensures StoredLeads(t', v, i) {
      assert StoredLeads(t, v, i);
    }
    forall x ensures AgreesWithBase(t'.base, t'.edges, x) {
      assert AgreesWithBase(t.base, t.edges, x);
    }
  }

  /** The edge that a removed edge became offers its arc. */
  lemma StoredArc(t: Tables, v: int, id: int, u: int, w: int)
    requires TablesOk(t, v) && id in t.edges && t.Settled(id)
    requires t.edges[id].Links(u, w) && t.edges[id].WeightAt(u, false).Fin?
    ensures IsEdgeId(t.base, t.shortcuts, t.StoredId(id))
    ensures EdgeOf(t.base, t.shortcuts, t.StoredId(id)).Links(u, w)
    ensures EdgeOf(t.base, t.shortcuts, t.StoredId(id)).WeightFrom(u) == t.edges[id].WeightAt(u, false)
  {
    assert AgreesWithBase(t.base, t.edges, id);
    if id >= |t.base| {
      assert StoredShortcutOk(t, v, id) && PrepareShortcutOk(t, v, id);
    }
  }

  // ----- storing the shortcuts of v

  /** A shortcut about to be stored. One that is open both ways stands for two shortcuts of
      the preparation. */
  datatype NodeBasedShortcut = NodeBasedShortcut(prepareEdgeFwd: int, prepareEdgeBwd: int, from: int, to: int,
                                                 skipped1: int, skipped2: int, weight: real, fwd: bool, bwd: bool)

  /** The shortcut leads from u to w over edges that are stored as c1 and c2. */
  ghost predicate LeadsAs(t: Tables, v: int, id: int, u: int, w: int, weight: real, c1: int, c2: int) {
    && id in t.edges && id >= |t.base| && t.AtNode(v, id)
    && t.edges[id].nodeA == u && t.edges[id].nodeB == w && t.edges[id].weightAB == Fin(weight)
    && t.Gone(v, t.edges[id].skipped1) && t.StoredId(t.edges[id].skipped1) == c1
    && t.Gone(v, t.edges[id].skipped2) && t.StoredId(t.edges[id].skipped2) == c2
  }

  ghost predicate Collected(t: Tables, v: int, sc: NodeBasedShortcut) {
    && sc.from == v && (sc.fwd || sc.bwd) && t.Gone(v, sc.skipped1) && t.Gone(v, sc.skipped2)
    && (sc.fwd ==> LeadsAs(t, v, sc.prepareEdgeFwd, v, sc.to, sc.weight, t.StoredId(sc.skipped1), t.StoredId(sc.skipped2)))
    && (sc.bwd ==> LeadsAs(t, v, sc.prepareEdgeBwd, sc.to, v, sc.weight, t.StoredId(sc.skipped2), t.StoredId(sc.skipped1)))
  }

  function Stored(sc: NodeBasedShortcut): Shortcut {
    Shortcut(sc.from, sc.to, sc.fwd, sc.bwd, sc.weight, sc.skipped1, sc.skipped2)
  }

  function Became(shortcutFor: map<int, int>, sc: NodeBasedShortcut, c: int): map<int, int> {
    var m := if sc.fwd then shortcutFor[sc.prepareEdgeFwd := c] else shortcutFor;
    if sc.bwd then m[sc.prepareEdgeBwd := c] else m
  }

  function WithStored(t: Tables, sc: NodeBasedShortcut): Tables {
    t.(shortcuts := t.shortcuts + [Stored(sc)], shortcutFor := Became(t.shortcutFor, sc, |t.base| + |t.shortcuts|))
  }

  /** Both directions of a merged shortcut lead over the same stored edges, so through the
      same middle node, and each with the weight of the shortcut. */
  lemma CollectedLeads(t: Tables, v: int, sc: NodeBasedShortcut)
    requires TablesOk(t, v) && Collected(t, v, sc)
    ensures LeadsOver(t.base, t.shortcuts + [Stored(sc)], |t.shortcuts|, t.StoredId(sc.skipped1), t.StoredId(sc.skipped2))
  {
    if sc.fwd {
      var id, e := sc.prepareEdgeFwd, t.edges[sc.prepareEdgeFwd];
      assert PrepareShortcutOk(t, v, id);
      var m := t.edges[e.skipped1].Adj(v);
      StoredArc(t, v, e.skipped1, v, m);
      StoredArc(t, v, e.skipped2, m, sc.to);
    }
    if sc.bwd {
      var id, e := sc.prepareEdgeBwd, t.edges[sc.prepareEdgeBwd];
      assert PrepareShortcutOk(t, v, id);
      var m := t.edges[e.skipped1].Adj(sc.to);
      StoredArc(t, v, e.skipped1, sc.to, m);
      StoredArc(t, v, e.skipped2, m, v);
    }
  }

  lemma GoneKept(t: Tables, v: int, sc: NodeBasedShortcut, x: int)
    requires Collected(t, v, sc) && t.Gone(v, x)
    ensures WithStored(t, sc).Gone(v, x) && WithStored(t, sc).StoredId(x) == t.StoredId(x)
  {
  }

  /** What was stored before stays, and the new shortcut is stored for what it stands for. */
  lemma StoredMore(t: Tables, v: int, sc: NodeBasedShortcut, x: int)
    requires TablesOk(t, v) && Collected(t, v, sc) && x in WithStored(t, sc).shortcutFor
    ensures StoredShortcutOk(WithStored(t, sc), v, x)
  {
    var t' := WithStored(t, sc);
    GoneKept(t, v, sc, sc.skipped1);
    GoneKept(t, v, sc, sc.skipped2);
    if x in t.shortcutFor {
      assert StoredShortcutOk(t, v, x);
    }
    if (sc.fwd && x == sc.prepareEdgeFwd) || (sc.bwd && x == sc.prepareEdgeBwd) {
      GoneKept(t, v, sc, t.edges[x].skipped1);
      GoneKept(t, v, sc, t.edges[x].skipped2);
    } else {
      var stored := t.shortcuts[t.shortcutFor[x] - |t.base|];
      GoneKept(t, v, sc, t.edges[x].skipped1);
      GoneKept(t, v, sc, t.edges[x].skipped2);
      GoneKept(t, v, sc, stored.skipped1);
      GoneKept(t, v, sc, stored.skipped2);
    }
  }

  lemma StoreOk(t: Tables, v: int, sc: NodeBasedShortcut)
    requires TablesOk(t, v) && Collected(t, v, sc)
    ensures TablesOk(WithStored(t, sc), v)
  {
    var t' := WithStored(t, sc);
    CollectedLeads(t, v, sc);
    assert forall x :: t.AtNode(v, x) <==> t'.AtNode(v, x);
    assert forall x :: t.Gone(v, x) ==> t'.Gone(v, x) && t'.StoredId(x) == t.StoredId(x);
    forall x | x in t'.edges && x >= |t.base| ensures PrepareShortcutOk(t', v, x) {
      assert PrepareShortcutOk(t, v, x);
    }
    forall x | x in t'.shortcutFor ensures StoredShortcutOk(t', v, x) {
      StoredMore(t, v, sc, x);
    }
    forall i | 0 <= i < |t'.shortcuts| ensures StoredLeads(t', v, i) {
      if i < |t.shortcuts| {
        assert StoredLeads(t, v, i);
      }
    }
    forall x ensures AgreesWithBase(t'.base, t'.edges, x) {
      assert AgreesWithBase(t.base, t.edges, x);
    }
  }

  /** A shortcut out of v, as it is about to be stored. */
  function OutShortcut(edges: EdgeTable, v: int, id: int): NodeBasedShortcut
    requires id in edges && edges[id].WeightAt(v, false).Fin?
  {
    NodeBasedShortcut(id, NO_EDGE, v, edges[id].Adj(v), edges[id].skipped1, edges[id].skipped2, edges[id].WeightAt(v, false).value, true, false)
  }

  /** A shortcut into v: seen from v, its skipped edges change places. */
  function InShortcut(edges: EdgeTable, v: int, id: int): NodeBasedShortcut
    requires id in edges && edges[id].WeightAt(v, true).Fin?
  {
    NodeBasedShortcut(NO_EDGE, id, v, edges[id].Adj(v), edges[id].skipped2, edges[id].skipped1, edges[id].WeightAt(v, true).value, false, true)
  }

  lemma OutCollected(t: Tables, v: int, id: int)
    requires TablesOk(t, v) && Listed(t.out, v, id) && id >= |t.base|
    ensures OpenAt(t.edges, |t.out|, v, id, false) && Collected(t, v, OutShortcut(t.edges, v, id))
    ensures LeavingArc(t.edges, v, id) in Arcs(t.edges, t.out)
  {
    AtNodeTouches(t, v, id);
    assert PrepareShortcutOk(t, v, id);
  }

  lemma InCollected(t: Tables, v: int, id: int)
    requires TablesOk(t, v) && Listed(t.into, v, id) && id >= |t.base|
    ensures OpenAt(t.edges, |t.out|, v, id, true) && Collected(t, v, InShortcut(t.edges, v, id))
    ensures ArrivingArc(t.edges, v, id) in Arcs(t.edges, t.out)
  {
    ArrivingIsArc(t.edges, t.out, t.into, v, id);
    assert PrepareShortcutOk(t, v, id);
  }

  /** The shortcut into v leads back over the same stored edges as the one out of v. */
  predicate Matches(edges: nat, shortcutFor: map<int, int>, sc: NodeBasedShortcut, other: NodeBasedShortcut)
    requires Mapped(edges, shortcutFor, sc.skipped1) && Mapped(edges, shortcutFor, sc.skipped2)
    requires Mapped(edges, shortcutFor, other.skipped1) && Mapped(edges, shortcutFor, other.skipped2)
  {
    && sc.to == other.to && sc.weight == other.weight && sc.fwd && !sc.bwd
    && MappedId(edges, shortcutFor, sc.skipped1) == MappedId(edges, shortcutFor, other.skipped1)
    && MappedId(edges, shortcutFor, sc.skipped2) == MappedId(edges, shortcutFor, other.skipped2)
  }

  function Merged(sc: NodeBasedShortcut, id: int): NodeBasedShortcut {
    sc.(bwd := true, prepareEdgeBwd := id)
  }

  lemma MergedCollected(t: Tables, v: int, sc: NodeBasedShortcut, id: int)
    requires TablesOk(t, v) && Collected(t, v, sc) && Listed(t.into, v, id) && id >= |t.base|
    requires OpenAt(t.edges, |t.out|, v, id, true) && Collected(t, v, InShortcut(t.edges, v, id))
    requires Matches(|t.base|, t.shortcutFor, sc, InShortcut(t.edges, v, id))
    ensures Collected(t, v, Merged(sc, id))
  {
  }

  lemma CollectedKept(t: Tables, v: int, sc: NodeBasedShortcut, other: NodeBasedShortcut)
    requires Collected(t, v, sc) && Collected(t, v, other)
    ensures Collected(WithStored(t, sc), v, other)
  {
    assert forall x :: t.AtNode(v, x) <==> WithStored(t, sc).AtNode(v, x);
  }

  lemma OnlyShortcutsStored(t: Tables, v: int)
    requires TablesOk(t, v)
    ensures forall id :: id in t.shortcutFor ==> id in t.edges && id >= |t.base|
  {
    assert forall id :: id in t.shortcutFor ==> StoredShortcutOk(t, v, id);
  }

  /** Once all shortcuts of v are stored, v can be disconnected. */
  lemma DisconnectedOk(t: Tables, v: int, t': Tables)
    requires TablesOk(t, v) && 0 <= v < |t.out|
    requires forall id :: t.AtNode(v, id) && id >= |t.base| ==> id in t.shortcutFor
    requires t' == t.(out := t'.out, into := t'.into) && ListsOk(t'.edges, t'.out, t'.into)
    requires Disconnected(t.out, t'.out, t.into, v) && Disconnected(t.into, t'.into, t.out, v)
    ensures TablesOk(t', NO_EDGE)
  {
    forall x | x in t'.edges && x >= |t.base| ensures PrepareShortcutOk(t', NO_EDGE, x) {
      assert PrepareShortcutOk(t, v, x);
    }
    forall x | x in t'.shortcutFor ensures StoredShortcutOk(t', NO_EDGE, x) {
      assert StoredShortcutOk(t, v, x);
    }
    forall i | 0 <= i < |t'.shortcuts| ensures StoredLeads(t', NO_EDGE, i) {
      assert StoredLeads(t, v, i);
    }
    forall x ensures AgreesWithBase(t'.base, t'.edges, x) {
      assert AgreesWithBase(t.base, t.edges, x);
    }
    OnlyShortcutsStored(t, v);
    forall u, x | Listed(t'.out, u, x) ensures x !in t'.shortcutFor {
      assert Listed(t.out, u, x) && u != v && !Listed(t.into, v, x);
      AtNodeTouches(t, u, x);
      AtNodeTouches(t, v, x);
      if x >= |t.base| {
        assert PrepareShortcutOk(t, v, x);
        assert !t.AtNode(v, x);
      }
    }
  }
}
