/** What a finished contraction hierarchy promises, and how the preparation gets there. */
module Hierarchies {
  import opened Counting
  import opened Walks
  import opened PrepareGraphs
  import opened CHStorages
  import opened ShortcutTables
  import opened Contraction
  import opened ContractionStates

  /** Every shortcut leads over two older edges. */
  ghost predicate Unpackable(base: seq<RoadEdge>, shortcuts: seq<Shortcut>) {
    forall i {:trigger shortcuts[i]} :: 0 <= i < |shortcuts| ==> LeadsOver(base, shortcuts, i, shortcuts[i].skipped1, shortcuts[i].skipped2)
  }

  /** No two nodes have the same level: at most one was not contracted. */
  ghost predicate LevelsDiffer(levels: seq<int>) {
    forall u, w {:trigger levels[u], levels[w]} :: 0 <= u < |levels| && 0 <= w < |levels| && levels[u] == levels[w] ==> u == w
  }

  /** Every walk of the base graph has an up-down walk that is no heavier, and every shortcut
      can be unpacked. */
  ghost predicate Hierarchical(ch: CHGraph) {
    && ch.Valid() && LevelsDiffer(ch.levels) && Unpackable(ch.base.edges, ch.shortcuts)
    && Complete(ChArcs(ch.base.edges, []), UpArcs(ch.base.edges, ch.shortcuts, ch.levels), iset{}, DownArcs(ch.base.edges, ch.shortcuts, ch.levels))
  }

  // ----- levels

  ghost function Uncontracted(levels: seq<int>): set<int> {
    set u | 0 <= u < |levels| && levels[u] == |levels|
  }

  ghost predicate Taken(levels: seq<int>, level: int) {
    exists u :: 0 <= u < |levels| && levels[u] == level
  }

  /** The levels below the given one are taken, each by one node. */
  ghost predicate LevelsTaken(levels: seq<int>, level: nat) {
    && LevelsOk(levels) && |Uncontracted(levels)| == |levels| - level
    && (forall u :: Contracted(levels, u) ==> levels[u] < level)
    && forall k {:trigger Taken(levels, k)} :: 0 <= k < level ==> Taken(levels, k)
  }

  lemma FirstLevel(levels: seq<int>)
    requires forall u :: 0 <= u < |levels| ==> levels[u] == |levels|
    ensures LevelsTaken(levels, 0)
  {
    AllOpen(levels, |levels|);
    assert Uncontracted(levels) == OpenBelow(levels, |levels|);
  }

  ghost function OpenBelow(levels: seq<int>, n: nat): set<int>
    requires n <= |levels|
  {
    set u | 0 <= u < n && levels[u] == |levels|
  }

  lemma OpenBelowSize(levels: seq<int>, n: nat)
    requires n <= |levels|
    ensures |OpenBelow(levels, n)| <= n
  {
    if n > 0 {
      OpenBelowSize(levels, n - 1);
      var rest := OpenBelow(levels, n - 1);
      assert OpenBelow(levels, n) == if levels[n - 1] == |levels| then rest + {n - 1} else rest;
    }
  }

  lemma AllOpen(levels: seq<int>, n: nat)
    requires n <= |levels| && forall u :: 0 <= u < |levels| ==> levels[u] == |levels|
    ensures |OpenBelow(levels, n)| == n
  {
    if n > 0 {
      AllOpen(levels, n - 1);
      assert OpenBelow(levels, n) == OpenBelow(levels, n - 1) + {n - 1};
    }
  }

  lemma NextLevel(levels: seq<int>, level: nat, v: int)
    requires LevelsTaken(levels, level) && 0 <= v < |levels| && levels[v] == |levels|
    ensures level < |levels| && LevelsTaken(levels[v := level], level + 1)
    ensures Uncontracted(levels[v := level]) == Uncontracted(levels) - {v}
  {
    assert v in Uncontracted(levels);
    var l, level' := levels[v := level], level + 1;
    assert Uncontracted(l) == Uncontracted(levels) - {v};
    forall u | Contracted(l, u) ensures l[u] < level' {
      assert u == v || Contracted(levels, u);
    }
    forall u, w | Contracted(l, u) && Contracted(l, w) && l[u] == l[w] ensures u == w {
      assert u == v || Contracted(levels, u);
      assert w == v || Contracted(levels, w);
    }
    forall k | 0 <= k < level' ensures Taken(l, k) {
      if k == level {
        assert l[v] == k;
      } else {
        assert Taken(levels, k);
        var u :| 0 <= u < |levels| && levels[u] == k;
        assert l[u] == k;
      }
    }
  }

  /** When no node is left, the levels are a bijection onto those below the node count. */
  lemma LastLevel(levels: seq<int>, level: nat)
    requires LevelsTaken(levels, level) && Uncontracted(levels) == {}
    ensures level == |levels| && LevelsDiffer(levels)
    ensures forall u, w :: 0 <= u < w < |levels| ==> levels[u] != levels[w]
    ensures forall k :: 0 <= k < |levels| ==> Taken(levels, k)
  {
    forall u | 0 <= u < |levels| ensures Contracted(levels, u) {
      assert u !in Uncontracted(levels);
    }
    forall u, w | 0 <= u < w < |levels| ensures levels[u] != levels[w] {
      assert Contracted(levels, u) && Contracted(levels, w);
    }
  }

  /** How many nodes are left when contraction ends because fewer remain than are to be spared. */
  function NodesLeft(nodes: nat, spared: int): nat {
    if nodes == 0 || spared <= 1 then 0 else if spared <= nodes then spared - 1 else nodes - 1
  }

  /** With at most one node left, all levels differ. */
  lemma FewLeft(levels: seq<int>, level: nat)
    requires LevelsTaken(levels, level) && |Uncontracted(levels)| <= 1
    ensures LevelsDiffer(levels)
  {
    forall u, w | 0 <= u < |levels| && 0 <= w < |levels| && levels[u] == levels[w] ensures u == w {
      if Contracted(levels, u) {
        assert Contracted(levels, w);
      } else if u != w {
        TwoElements(Uncontracted(levels), u, w);
      }
    }
  }

  // ----- the end of the preparation

  lemma SameArcs(base: seq<RoadEdge>, a: seq<Shortcut>, b: seq<Shortcut>, levels: seq<int>)
    requires |a| == |b| && forall i :: 0 <= i < |a| ==> a[i].Edge() == b[i].Edge()
    ensures UpArcs(base, a, levels) == UpArcs(base, b, levels) && DownArcs(base, a, levels) == DownArcs(base, b, levels)
  {
    assert forall x :: IsChArc(base, a, x) <==> IsChArc(base, b, x);
  }

  /** The stored shortcuts lead over the stored edges that the skipped ones became. */
  ghost predicate StoredFrom(t: Tables, ch: CHGraph) {
    && ch.base.edges == t.base && |ch.shortcuts| == |t.shortcuts|
    && forall i {:trigger ch.shortcuts[i]} :: 0 <= i < |t.shortcuts| ==>
         && t.Settled(t.shortcuts[i].skipped1) && t.Settled(t.shortcuts[i].skipped2)
         && ch.shortcuts[i] == WithMapped(|t.base|, t.shortcutFor, t.shortcuts[i])
  }

  lemma FinishedUnpacks(t: Tables, ch: CHGraph)
    requires TablesOk(t, NO_EDGE) && StoredFrom(t, ch)
    ensures Unpackable(ch.base.edges, ch.shortcuts)
  {
    forall i | 0 <= i < |ch.shortcuts| ensures LeadsOver(t.base, ch.shortcuts, i, ch.shortcuts[i].skipped1, ch.shortcuts[i].skipped2) {
      assert StoredLeads(t, NO_EDGE, i);
    }
  }

  lemma Finished(t: Tables, ch: CHGraph)
    requires Prepared(t, ch.levels, NO_EDGE) && ch.Valid() && LevelsDiffer(ch.levels) && StoredFrom(t, ch)
    ensures Hierarchical(ch)
  {
    FinishedUnpacks(t, ch);
    SameArcs(t.base, t.shortcuts, ch.shortcuts, ch.levels);
    assert Core(t) == iset{} by {
      forall a ensures a !in Core(t) {
        assert a in Core(t) ==> Remaining(ch.levels, NO_EDGE, a.from) && Remaining(ch.levels, NO_EDGE, a.to);
      }
    }
  }

  lemma AllSettled(t: Tables)
    requires TablesOk(t, NO_EDGE)
    ensures forall i :: 0 <= i < |t.shortcuts| ==> t.Settled(t.shortcuts[i].skipped1) && t.Settled(t.shortcuts[i].skipped2)
  {
    forall i | 0 <= i < |t.shortcuts| ensures t.Settled(t.shortcuts[i].skipped1) && t.Settled(t.shortcuts[i].skipped2) {
      assert StoredLeads(t, NO_EDGE, i);
    }
  }

  // ----- the beginning

  /** Adding a base edge adds its arcs. */
  lemma BaseArcsStep(base: seq<RoadEdge>, i: nat)
    requires i < |base| && base[i].Links(base[i].nodeA, base[i].nodeB)
    ensures var e := base[i];
            ChArcs(base[..i + 1], []) == ChArcs(base[..i], [])
              + (if e.weightAB.Fin? then iset{Arc(i, e.nodeA, e.nodeB, e.weightAB.value)} else iset{})
              + (if e.weightBA.Fin? then iset{Arc(i, e.nodeB, e.nodeA, e.weightBA.value)} else iset{})
  {
    var e := base[i];
    forall a ensures IsChArc(base[..i + 1], [], a) <==>
                     || IsChArc(base[..i], [], a)
                     || (e.weightAB.Fin? && a == Arc(i, e.nodeA, e.nodeB, e.weightAB.value))
                     || (e.weightBA.Fin? && a == Arc(i, e.nodeB, e.nodeA, e.weightBA.value))
    {
      if 0 <= a.edge < i {
        assert base[..i + 1][a.edge] == base[..i][a.edge];
      }
    }
  }

  lemma PreparedStart(t: Tables, levels: seq<int>)
    requires ListsOk(t.edges, t.out, t.into) && t.shortcutFor == map[] && t.shortcuts == [] && |t.out| == |levels|
    requires forall u :: 0 <= u < |levels| ==> levels[u] == |levels|
    requires forall id :: id in t.edges ==> 0 <= id < |t.base| && AgreesWithBase(t.base, t.edges, id)
    requires Core(t) == ChArcs(t.base, [])
    ensures Prepared(t, levels, NO_EDGE)
  {
    var base, up, down := ChArcs(t.base, []), UpArcs(t.base, [], levels), DownArcs(t.base, [], levels);
    CompleteStart(base);
    CompleteMore(base, iset{}, base, iset{}, up, down);
    forall a | a in Core(t) ensures Remaining(levels, NO_EDGE, a.from) && Remaining(levels, NO_EDGE, a.to) {
      ArcArrives(t.edges, t.out, t.into, a);
    }
  }
}
