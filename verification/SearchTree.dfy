/** One direction of a bidirectional search: the labels of the nodes reached so far
    and the open set, with lazily deleted entries. The same structure serves the
    plain, the A* and the contraction-hierarchy search, forwards and backwards. */
module SearchTrees {
  import opened Walks

  /** A label: the tail of a tree path, linked to its parent label. */
  datatype SPTEntry =
    | Root(adjNode: int, weight: real)
    | Child(edge: int, adjNode: int, weight: real, pathWeight: real, parent: SPTEntry)
  {
    function EdgeId(): int {
      if Root? then NO_EDGE else edge
    }

    function VisitedWeight(): real {
      if Root? then 0.0 else pathWeight
    }

    /** The last arc of the tree path. */
    ghost function Step(): Arc
      requires Child?
    {
      Arc(edge, parent.adjNode, adjNode, pathWeight - parent.VisitedWeight())
    }

    ghost function Path(): Walk {
      if Root? then [] else parent.Path() + [Step()]
    }
  }

  /** What a search is about: the arcs it may relax, in search direction, the node it
      starts at, and the estimate it adds to the heap weights. */
  datatype Task = Task(graph: Graph, root: int, potential: int -> real) {
    ghost predicate Admissible() {
      && NonNegative(graph)
      && (forall a :: a in graph ==> a.edge != NO_EDGE)
      && forall a :: a in graph ==> potential(a.from) <= a.weight + potential(a.to)
    }

    /** The label describes a walk from the root, and its heap weight adds the estimate. */
    ghost predicate EntryOk(e: SPTEntry) {
      && e.weight == e.VisitedWeight() + potential(e.adjNode)
      && if e.Root? then e.adjNode == root else EntryOk(e.parent) && e.Step() in graph
    }

    lemma {:induction false} PathOk(e: SPTEntry)
      requires EntryOk(e)
      ensures IsWalk(graph, root, e.adjNode, e.Path()) && Length(e.Path()) == e.VisitedWeight()
    {
      if e.Child? {
        PathOk(e.parent);
        WalkSnoc(graph, root, e.parent.Path(), e.Step());
      }
    }
  }

  /** The state of a search: the current label of each node, the open set, in which
      superseded entries stay until they are popped, the entries flagged as superseded,
      and the entry popped last. */
  datatype SearchTree = SearchTree(best: map<int, SPTEntry>, queue: set<SPTEntry>, deleted: set<SPTEntry>, curr: SPTEntry)

  /** The nodes whose label was popped, and those of them whose arcs have all been relaxed. */
  datatype History = History(settled: set<int>, expanded: set<int>)

  /** Arc a out of a labelled node is relaxed. */
  ghost predicate Relaxed(best: map<int, SPTEntry>, a: Arc) {
    && a.from in best && a.to in best
    && best[a.to].VisitedWeight() <= best[a.from].VisitedWeight() + a.weight
  }

  /** The current label of the entry's node is at least as good as the entry. */
  ghost predicate NoWorse(t: SearchTree, e: SPTEntry) {
    e.adjNode in t.best && t.best[e.adjNode].VisitedWeight() <= e.VisitedWeight()
  }

  /** A label of a search, or a root that stands in for the root of that search. */
  ghost predicate IsEnd(k: Task, e: SPTEntry) {
    k.EntryOk(e) || (e.Root? && e.adjNode == k.root)
  }

  ghost predicate Labels(k: Task, t: SearchTree) {
    && k.root in t.best && t.best[k.root].Root?
    && (forall v {:trigger t.best[v]} :: v in t.best ==> t.best[v].adjNode == v)
    && (forall v {:trigger k.EntryOk(t.best[v])} :: v in t.best ==> k.EntryOk(t.best[v]))
    && (forall v {:trigger t.best[v].parent} :: v in t.best && t.best[v].Child? ==> NoWorse(t, t.best[v].parent))
    && (forall e {:trigger NoWorse(t, e)} :: e in t.queue ==> NoWorse(t, e))
    && k.EntryOk(t.curr) && NoWorse(t, t.curr) && (t.curr.Child? ==> NoWorse(t, t.curr.parent))
  }

  ghost predicate Progress(k: Task, t: SearchTree, h: History) {
    && h.settled <= t.best.Keys && h.expanded <= h.settled
    && (forall v {:trigger t.best[v] in t.queue} {:trigger v in h.settled} :: v in t.best ==> (v in h.settled <==> t.best[v] !in t.queue))
    && (forall v {:trigger t.best[v].weight} :: v in t.best ==>
          if v in h.settled then t.best[v].weight <= t.curr.weight else t.best[v].weight >= t.curr.weight)
    && (forall a {:trigger Relaxed(t.best, a)} :: a in k.graph && a.from in h.expanded ==> Relaxed(t.best, a))
  }

  ghost predicate IsCurrent(t: SearchTree, e: SPTEntry) {
    e.adjNode in t.best && t.best[e.adjNode] == e
  }

  ghost predicate IsSuperseded(t: SearchTree, e: SPTEntry) {
    e.adjNode in t.best && t.best[e.adjNode].VisitedWeight() < e.VisitedWeight()
  }

  /** An entry of the open set is flagged exactly when a better label replaced it. */
  ghost predicate Flags(t: SearchTree) {
    && (forall e {:trigger IsCurrent(t, e)} :: e in t.queue && e !in t.deleted ==> IsCurrent(t, e))
    && (forall e {:trigger IsSuperseded(t, e)} :: e in t.deleted ==> IsSuperseded(t, e))
  }

  ghost predicate Ok(k: Task, t: SearchTree, h: History) {
    k.Admissible() && Labels(k, t) && Progress(k, t, h) && Flags(t)
  }

  /** The popped node is the one to expand now. */
  ghost predicate Popped(t: SearchTree, h: History) {
    t.curr.adjNode in h.settled && IsCurrent(t, t.curr)
  }

  lemma MinEntryExists(queue: set<SPTEntry>)
    requires queue != {}
    ensures exists e :: e in queue && forall f :: f in queue ==> e.weight <= f.weight
  {
    var x :| x in queue;
    var rest := queue - {x};
    assert forall f :: f in queue ==> f == x || f in rest;
    if rest == {} {
      assert forall f :: f in queue ==> x.weight <= f.weight;
    } else {
      MinEntryExists(rest);
      var m :| m in rest && forall f :: f in rest ==> m.weight <= f.weight;
      var y := if x.weight < m.weight then x else m;
      assert y in queue && forall f :: f in queue ==> y.weight <= f.weight;
    }
  }

  function StartTree(root: int, weight: real): SearchTree {
    var e := Root(root, weight);
    SearchTree(map[root := e], {e}, {}, e)
  }

  const UNSTARTED := History({}, {})

  lemma StartOk(k: Task, weight: real)
    requires k.Admissible() && weight == k.potential(k.root)
    ensures Ok(k, StartTree(k.root, weight), UNSTARTED)
  {
  }

  ghost predicate Lightest(e: SPTEntry, queue: set<SPTEntry>) {
    e in queue && forall f :: f in queue ==> e.weight <= f.weight
  }

  /** Dropping superseded entries changes nothing of interest. */
  lemma DropOk(k: Task, t: SearchTree, h: History, kept: set<SPTEntry>)
    requires Ok(k, t, h) && kept <= t.queue && t.queue - kept <= t.deleted
    ensures Ok(k, t.(queue := kept), h)
  {
    var t' := t.(queue := kept);
    forall v | v in t.best ensures t.best[v] in t'.queue <==> t.best[v] in t.queue {
      assert t.best[v] in t.deleted ==> IsSuperseded(t, t.best[v]);
    }
    assert forall f :: NoWorse(t', f) <==> NoWorse(t, f);
    assert Labels(k, t');
    assert Flags(t') by {
      assert forall f :: IsCurrent(t', f) <==> IsCurrent(t, f);
      assert forall f :: IsSuperseded(t', f) <==> IsSuperseded(t, f);
    }
  }

  /** A popped entry that was not superseded is the label of a node not settled before. */
  lemma PopOk(k: Task, t: SearchTree, h: History, e: SPTEntry)
    requires Ok(k, t, h) && Lightest(e, t.queue) && e !in t.deleted
    ensures var t', h' := t.(queue := t.queue - {e}, curr := e), h.(settled := h.settled + {e.adjNode});
            Ok(k, t', h') && Popped(t', h')
    ensures e.adjNode !in h.settled && e.weight >= t.curr.weight
  {
    var t' := t.(queue := t.queue - {e}, curr := e);
    assert IsCurrent(t, e);
    assert k.EntryOk(t.best[e.adjNode]);
    assert forall f :: NoWorse(t', f) <==> NoWorse(t, f);
    assert e.Child? ==> NoWorse(t, t.best[e.adjNode].parent);
    assert Labels(k, t');
    assert Flags(t') by {
      assert forall f :: IsCurrent(t', f) <==> IsCurrent(t, f);
      assert forall f :: IsSuperseded(t', f) <==> IsSuperseded(t, f);
    }
    forall v | v in t.best && v !in h.settled ensures t.best[v].weight >= e.weight {
      assert t.best[v] in t.queue;
    }
  }

  /** The search pops a lightest entry, past some that were superseded. */
  ghost predicate Pops(t: SearchTree, t': SearchTree) {
    && t' == t.(queue := t'.queue, curr := t'.curr) && t'.queue <= t.queue
    && t'.curr in t.queue && t'.curr !in t'.queue && t'.curr !in t.deleted
    && (forall e :: e in t'.queue ==> t'.curr.weight <= e.weight)
    && forall e :: e in t.queue && e !in t'.queue && e != t'.curr ==> e in t.deleted && e.weight <= t'.curr.weight
  }

  /** The search has only superseded entries left, and drops them all. */
  ghost predicate RunsDry(t: SearchTree, t': SearchTree) {
    t' == t.(queue := {}) && t.queue <= t.deleted
  }

  /** What is popped is the label of a node not settled before. */
  lemma PopsOk(k: Task, t: SearchTree, h: History, t': SearchTree)
    requires Ok(k, t, h) && Pops(t, t')
    ensures var h' := h.(settled := h.settled + {t'.curr.adjNode}); Ok(k, t', h') && Popped(t', h')
    ensures t'.curr.adjNode !in h.settled && t'.curr.weight >= t.curr.weight
  {
    var kept := t'.queue + {t'.curr};
    DropOk(k, t, h, kept);
    PopOk(k, t.(queue := kept), h, t'.curr);
    assert kept - {t'.curr} == t'.queue;
  }

  /** A search runs dry when every labelled node is settled. */
  lemma DryOk(k: Task, t: SearchTree, h: History, t': SearchTree)
    requires Ok(k, t, h) && RunsDry(t, t')
    ensures Ok(k, t', h) && h.settled == t.best.Keys
  {
    DropOk(k, t, h, {});
    forall v | v in t.best ensures v in h.settled {
      assert t'.best[v] !in t'.queue;
    }
  }

  /** Pops the next entry that is still current, dropping superseded ones on the way. */
  method PopNext(t: SearchTree) returns (found: bool, t': SearchTree)
    ensures if found then Pops(t, t') else RunsDry(t, t')
  {
    t' := t;
    while t'.queue != {}
      invariant t' == t.(queue := t'.queue) && t'.queue <= t.queue
      invariant forall e :: e in t.queue && e !in t'.queue ==> e in t.deleted && forall f :: f in t'.queue ==> e.weight <= f.weight
      decreases t'.queue
    {
      MinEntryExists(t'.queue);
      var e :| e in t'.queue && forall f :: f in t'.queue ==> e.weight <= f.weight;
      if e !in t'.deleted {
        t' := t'.(queue := t'.queue - {e}, curr := e);
        return true, t';
      }
      t' := t'.(queue := t'.queue - {e});
    }
    return false, t';
  }

  /** The tree with a new label, which supersedes the previous label of its node. */
  function WithLabel(t: SearchTree, e: SPTEntry): SearchTree {
    t.(best := t.best[e.adjNode := e], queue := t.queue + {e},
       deleted := if e.adjNode in t.best then t.deleted + {t.best[e.adjNode]} else t.deleted)
  }

  /** The label that the popped entry offers to the head of arc a. */
  function Offer(k: Task, t: SearchTree, a: Arc): SPTEntry {
    var w := t.curr.VisitedWeight() + a.weight;
    Child(a.edge, a.to, w + k.potential(a.to), w, t.curr)
  }

  /** A label improved through the popped entry belongs to an open node: a settled
      one already has a heap weight of at most that of the popped entry. */
  lemma ImprovementIsOpen(k: Task, t: SearchTree, h: History, a: Arc)
    requires Ok(k, t, h) && a in k.graph && a.from == t.curr.adjNode
    requires a.to in t.best ==> Offer(k, t, a).VisitedWeight() < t.best[a.to].VisitedWeight()
    ensures a.to !in h.settled && a.to != k.root && Offer(k, t, a).weight >= t.curr.weight
    ensures k.EntryOk(Offer(k, t, a))
  {
    k.PathOk(t.curr);
    LengthNonNegative(k.graph, t.curr.Path());
    assert Offer(k, t, a).Step() == a;
    if a.to in t.best {
      assert k.EntryOk(t.best[a.to]);
    }
  }

  /** Storing an improved label keeps the invariant: labels only get better, open
      nodes stay open, and exactly the replaced entry is flagged. */
  lemma WithLabelOk(k: Task, t: SearchTree, h: History, a: Arc)
    requires Ok(k, t, h) && Popped(t, h)
    requires a in k.graph && a.from == t.curr.adjNode
    requires a.to in t.best ==> Offer(k, t, a).VisitedWeight() < t.best[a.to].VisitedWeight()
    ensures Ok(k, WithLabel(t, Offer(k, t, a)), h) && Popped(WithLabel(t, Offer(k, t, a)), h)
    ensures a.to !in h.settled
  {
    ImprovementIsOpen(k, t, h, a);
    var e := Offer(k, t, a);
    var t' := WithLabel(t, e);
    assert forall v :: v in t.best ==> v in t'.best && t'.best[v].VisitedWeight() <= t.best[v].VisitedWeight();
    assert forall f :: NoWorse(t, f) ==> NoWorse(t', f);
    assert Labels(k, t');
    forall x | x in k.graph && x.from in h.expanded ensures Relaxed(t'.best, x) {
      assert Relaxed(t.best, x);
    }
    forall f | f in t'.deleted ensures IsSuperseded(t', f) {
      assert f in t.deleted ==> IsSuperseded(t, f);
    }
    forall f | f in t'.queue && f !in t'.deleted ensures IsCurrent(t', f) {
      assert f != e ==> IsCurrent(t, f);
    }
  }

  // ----- what the invariant says about labels

  /** Along a walk whose settled inner nodes are all expanded, every node that is
      closer than the entry popped last is settled with a label no worse than the walk. */
  lemma {:induction false} ClosedBelow(k: Task, t: SearchTree, h: History, v: int, p: Walk)
    requires Ok(k, t, h) && IsWalk(k.graph, k.root, v, p)
    requires Length(p) + k.potential(v) < t.curr.weight || h.settled == t.best.Keys
    requires forall i :: 0 <= i < |p| ==> (NodeAt(k.root, p, i) in h.settled ==> NodeAt(k.root, p, i) in h.expanded)
    ensures v in h.settled && t.best[v].VisitedWeight() <= Length(p)
    decreases |p|
  {
    if p == [] {
      assert k.EntryOk(t.best[k.root]);
    } else {
      var n := |p| - 1;
      var a, q := p[n], p[..n];
      WalkSplit(k.graph, k.root, v, p, n);
      assert p[n..] == [a];
      LengthOne(a);
      forall i | 0 <= i < |q| ensures NodeAt(k.root, q, i) in h.settled ==> NodeAt(k.root, q, i) in h.expanded {
        assert NodeAt(k.root, q, i) == NodeAt(k.root, p, i);
      }
      assert a in k.graph;
      assert a.from == NodeAt(k.root, p, n) by {
        if n > 0 { assert p[n - 1].to == p[n].from; }
      }
      ClosedBelow(k, t, h, a.from, q);
      assert a.from in h.expanded;
      assert Relaxed(t.best, a) && k.EntryOk(t.best[v]);
    }
  }
}
