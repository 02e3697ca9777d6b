/** What the search tree of the witness search knows about the graph it was begun in, although
    the graph gets shortcuts meanwhile: until its limit is hit, it misses no detour. */
module WitnessTrees {
  import opened Walks
  import opened HeapOrder
  import opened Contraction

  /** The nodes polled so far with their keys, the greatest of these, and the node polled last
      while its arcs are being relaxed. */
  datatype Progress = Progress(settled: map<int, real>, level: real, current: int)

  const NO_NODE := -1

  /** The weight of node v is finite and at most w. */
  ghost predicate WeighsAtMost(weights: seq<Weight>, v: int, w: real) {
    0 <= v < |weights| && weights[v].Fin? && weights[v].value <= w
  }

  ghost predicate IsEntry(weights: seq<Weight>, p: Progress, x: (int, Key)) {
    && 0 <= x.0 < |weights| && weights[x.0].Fin? && x.1 == Key(weights[x.0].value)
    && x.0 !in p.settled && x.0 != p.current && p.level <= weights[x.0].value
  }

  ghost predicate Waits(weights: seq<Weight>, p: Progress, contents: multiset<(int, Key)>, v: int) {
    0 <= v < |weights| && weights[v].Fin? && v !in p.settled && v != p.current ==> (v, Key(weights[v].value)) in contents
  }

  /** The heap holds each reached node that was not polled, once, with its weight. */
  ghost predicate HeapOk(weights: seq<Weight>, p: Progress, contents: multiset<(int, Key)>) {
    && (forall x {:trigger contents[x]} :: x in contents ==> IsEntry(weights, p, x) && contents[x] == 1)
    && (forall v {:trigger Waits(weights, p, contents, v)} :: Waits(weights, p, contents, v))
  }

  /** The arc was relaxed when its tail was polled with key k. */
  ghost predicate ArcDone(weights: seq<Weight>, p: Progress, k: real, a: Arc) {
    WeighsAtMost(weights, a.to, k + a.weight) && (a.to in p.settled ==> p.settled[a.to] <= k + a.weight)
  }

  ghost predicate SettledOk(weights: seq<Weight>, p: Progress, v: int) {
    v in p.settled ==> WeighsAtMost(weights, v, p.settled[v]) && p.settled[v] <= p.level
  }

  ghost predicate TreeOk(b: Graph, start: int, weights: seq<Weight>, p: Progress) {
    && WeighsAtMost(weights, start, 0.0) && (start in p.settled ==> p.settled[start] <= 0.0)
    && (forall v {:trigger SettledOk(weights, p, v)} :: SettledOk(weights, p, v))
    && (forall a {:trigger a in b} :: a in b && a.from in p.settled ==> ArcDone(weights, p, p.settled[a.from], a))
    && (p.current != NO_NODE ==> p.current !in p.settled && 0 <= p.current < |weights| && weights[p.current] == Fin(p.level))
  }

  ghost predicate Tracks(b: Graph, start: int, weights: seq<Weight>, p: Progress, contents: multiset<(int, Key)>) {
    TreeOk(b, start, weights, p) && HeapOk(weights, p, contents)
  }

  lemma TracksStart(b: Graph, start: int, weights: seq<Weight>)
    requires 0 <= start < |weights| && forall v :: 0 <= v < |weights| ==> weights[v] == if v == start then Fin(0.0) else Inf
    ensures Tracks(b, start, weights, Progress(map[], 0.0, NO_NODE), multiset{(start, Key(0.0))})
  {
  }

  /** A node of least key is polled. */
  lemma TracksPolled(b: Graph, start: int, weights: seq<Weight>, p: Progress, contents: multiset<(int, Key)>, x: (int, Key))
    requires Tracks(b, start, weights, p, contents) && p.current == NO_NODE
    requires x in contents && forall y :: y in contents ==> x.1.AtMost(y.1)
    ensures x.0 >= 0 && x.1.Key? && Tracks(b, start, weights, p.(current := x.0, level := x.1.value), contents - multiset{x})
  {
    var p', rest := p.(current := x.0, level := x.1.value), contents - multiset{x};
    assert contents[x] == 1 && IsEntry(weights, p, x);
    forall y | y in rest ensures IsEntry(weights, p', y) && rest[y] == 1 {
      assert contents[y] == 1 && IsEntry(weights, p, y);
    }
    forall v ensures Waits(weights, p', rest, v) && SettledOk(weights, p', v) {
      assert Waits(weights, p, contents, v) && SettledOk(weights, p, v);
    }
  }

  /** No node got heavier. */
  ghost predicate Lower(weights: seq<Weight>, weights': seq<Weight>) {
    |weights'| == |weights| && forall v {:trigger weights'[v]} :: 0 <= v < |weights| ==> weights'[v].AtMost(weights[v])
  }

  lemma ArcStaysDone(weights: seq<Weight>, weights': seq<Weight>, p: Progress, k: real, a: Arc)
    requires Lower(weights, weights') && ArcDone(weights, p, k, a)
    ensures ArcDone(weights', p, k, a)
  {
    assert weights'[a.to].AtMost(weights[a.to]);
  }

  lemma TreeStays(b: Graph, start: int, weights: seq<Weight>, weights': seq<Weight>, p: Progress)
    requires TreeOk(b, start, weights, p) && Lower(weights, weights')
    requires p.current != NO_NODE ==> 0 <= p.current < |weights'| && weights'[p.current] == weights[p.current]
    ensures TreeOk(b, start, weights', p)
  {
    assert weights'[start].AtMost(weights[start]);
    forall v ensures SettledOk(weights', p, v) {
      assert SettledOk(weights, p, v);
      if v in p.settled {
        assert weights'[v].AtMost(weights[v]);
      }
    }
    forall a | a in b && a.from in p.settled ensures ArcDone(weights', p, p.settled[a.from], a) {
      ArcStaysDone(weights, weights', p, p.settled[a.from], a);
    }
  }

  lemma LowerOne(weights: seq<Weight>, v: int, w: real)
    requires 0 <= v < |weights| && (weights[v].Fin? ==> w <= weights[v].value)
    ensures Lower(weights, weights[v := Fin(w)])
  {
  }

  /** An arc of the current node that offers nothing better is done. */
  lemma NothingBetter(b: Graph, start: int, weights: seq<Weight>, p: Progress, a: Arc)
    requires TreeOk(b, start, weights, p) && a.from == p.current != NO_NODE && WeighsAtMost(weights, a.to, p.level + a.weight) && a.weight >= 0.0
    ensures ArcDone(weights, p, p.level, a)
  {
    assert SettledOk(weights, p, a.to);
  }

  /** A node that is reached for the first time. */
  lemma Discovered(b: Graph, start: int, weights: seq<Weight>, p: Progress, contents: multiset<(int, Key)>, a: Arc)
    requires Tracks(b, start, weights, p, contents) && a.from == p.current != NO_NODE && a.weight >= 0.0
    requires 0 <= a.to < |weights| && weights[a.to].Inf?
    ensures var w := p.level + a.weight;
            && Tracks(b, start, weights[a.to := Fin(w)], p, contents + multiset{(a.to, Key(w))})
            && Lower(weights, weights[a.to := Fin(w)]) && ArcDone(weights[a.to := Fin(w)], p, p.level, a)
  {
    var w := p.level + a.weight;
    var weights', contents' := weights[a.to := Fin(w)], contents + multiset{(a.to, Key(w))};
    LowerOne(weights, a.to, w);
    TreeStays(b, start, weights, weights', p);
    assert SettledOk(weights, p, a.to);
    forall x | x in contents' ensures IsEntry(weights', p, x) && contents'[x] == 1 {
      assert x in contents ==> IsEntry(weights, p, x) && contents[x] == 1;
    }
    forall v ensures Waits(weights', p, contents', v) {
      assert Waits(weights, p, contents, v);
    }
  }

  /** The entry of a node in the heap is the one with its weight. */
  lemma OwnEntry(b: Graph, start: int, weights: seq<Weight>, p: Progress, contents: multiset<(int, Key)>, v: int, k: Key)
    requires Tracks(b, start, weights, p, contents) && 0 <= v < |weights| && weights[v].Fin?
    ensures (v, k) in contents ==> k == Key(weights[v].value)
  {
    assert contents[(v, k)] > 0 ==> IsEntry(weights, p, (v, k));
  }

  /** A node that gets lighter: it takes its entry along, or has been polled before. */
  lemma Improved(b: Graph, start: int, weights: seq<Weight>, p: Progress, contents: multiset<(int, Key)>, a: Arc, contents': multiset<(int, Key)>)
    requires Tracks(b, start, weights, p, contents) && a.from == p.current != NO_NODE && a.weight >= 0.0
    requires 0 <= a.to < |weights| && weights[a.to].Fin? && p.level + a.weight < weights[a.to].value
    requires var previous, next := (a.to, Key(weights[a.to].value)), (a.to, Key(p.level + a.weight));
             contents' == if previous in contents then contents - multiset{previous} + multiset{next} else contents
    ensures var w := p.level + a.weight;
            && Tracks(b, start, weights[a.to := Fin(w)], p, contents')
            && Lower(weights, weights[a.to := Fin(w)]) && ArcDone(weights[a.to := Fin(w)], p, p.level, a)
  {
    var w := p.level + a.weight;
    var weights' := weights[a.to := Fin(w)];
    LowerOne(weights, a.to, w);
    TreeStays(b, start, weights, weights', p);
    assert SettledOk(weights, p, a.to) && Waits(weights, p, contents, a.to);
    forall x | x in contents' ensures IsEntry(weights', p, x) && contents'[x] == 1 {
      assert x in contents ==> IsEntry(weights, p, x) && contents[x] == 1;
      assert (a.to, Key(weights[a.to].value)) in contents ==> contents[(a.to, Key(weights[a.to].value))] == 1;
    }
    forall v ensures Waits(weights', p, contents', v) {
      assert Waits(weights, p, contents, v);
    }
  }

  lemma OneMoreSettled(b: Graph, start: int, weights: seq<Weight>, p: Progress)
    requires TreeOk(b, start, weights, p) && p.current != NO_NODE
    ensures |p.settled[p.current := p.level]| == |p.settled| + 1
  {
  }

  /** The current node is settled when arcs no heavier than its arcs are done. */
  lemma TracksSettled(b: Graph, g: Graph, start: int, weights: seq<Weight>, p: Progress, contents: multiset<(int, Key)>)
    requires Tracks(b, start, weights, p, contents) && p.current != NO_NODE && Dominates(g, b)
    requires forall c {:trigger c in g} :: c in g && c.from == p.current ==> ArcDone(weights, p, p.level, c) && c.to != p.current
    ensures Tracks(b, start, weights, p.(settled := p.settled[p.current := p.level], current := NO_NODE), contents)
  {
    var v := p.current;
    var p' := p.(settled := p.settled[v := p.level], current := NO_NODE);
    forall a | a in b && a.from in p'.settled ensures ArcDone(weights, p', p'.settled[a.from], a) {
      if a.from == v {
        assert HasParallel(g, a);
        var c :| c in g && c.from == a.from && c.to == a.to && c.weight <= a.weight;
        assert ArcDone(weights, p, p.level, c);
      } else {
        assert ArcDone(weights, p, p.settled[a.from], a);
      }
    }
    forall u ensures SettledOk(weights, p', u) && Waits(weights, p', contents, u) {
      assert SettledOk(weights, p, u) && Waits(weights, p, contents, u);
    }
    forall x | x in contents ensures IsEntry(weights, p', x) && contents[x] == 1 {
      assert IsEntry(weights, p, x);
    }
  }

  /** When all keys in the heap are above the accepted weight, every walk of at most that weight
      ends in a node that was polled with no more than its weight. */
  lemma {:induction false} AllFound(b: Graph, start: int, weights: seq<Weight>, p: Progress, contents: multiset<(int, Key)>, accepted: real, v: int, walk: Walk)
    requires Tracks(b, start, weights, p, contents) && p.current == NO_NODE && NonNegative(b)
    requires forall x {:trigger contents[x]} :: x in contents ==> x.1.Key? && x.1.value > accepted
    requires IsWalk(b, start, v, walk) && Length(walk) <= accepted
    ensures v in p.settled && p.settled[v] <= Length(walk) && WeighsAtMost(weights, v, Length(walk))
    decreases |walk|
  {
    if walk != [] {
      var n := |walk| - 1;
      var a, before := walk[n], walk[..n];
      WalkSplit(b, start, v, walk, n);
      assert walk[n..] == [a];
      LengthOne(a);
      assert a in b && a.from == NodeAt(start, walk, n) by {
        if n > 0 { assert walk[n - 1].to == walk[n].from; }
      }
      AllFound(b, start, weights, p, contents, accepted, a.from, before);
      assert ArcDone(weights, p, p.settled[a.from], a);
    }
    var k := weights[v].value;
    assert Waits(weights, p, contents, v) && SettledOk(weights, p, v);
    assert contents[(v, Key(k))] > 0 ==> k > accepted;
  }
}
