/** What contracting a node must keep, and why that keeps every distance: the theory of one
    contraction step, on graphs. */
module Contraction {
  import opened Walks
  import opened PrepareGraphs

  /** Arc a has a parallel one in h that is no heavier. */
  ghost predicate HasParallel(h: Graph, a: Arc) {
    exists c :: c in h && c.from == a.from && c.to == a.to && c.weight <= a.weight
  }

  ghost predicate Dominates(h: Graph, g: Graph) {
    forall a {:trigger HasParallel(h, a)} :: a in g ==> HasParallel(h, a)
  }

  lemma DominatesItself(g: Graph)
    ensures Dominates(g, g)
  {
    forall a | a in g ensures HasParallel(g, a) {
    }
  }

  lemma DominatesTransitive(k: Graph, h: Graph, g: Graph)
    requires Dominates(k, h) && Dominates(h, g)
    ensures Dominates(k, g)
  {
    forall a | a in g ensures HasParallel(k, a) {
      assert HasParallel(h, a);
      var c :| c in h && c.from == a.from && c.to == a.to && c.weight <= a.weight;
      assert HasParallel(k, c);
    }
  }

  lemma DominatesCovers(h: Graph, g: Graph)
    requires Dominates(h, g)
    ensures Covers(h, g)
  {
    forall a | a in g ensures Reaches(h, a.from, a.to, a.weight) {
      assert HasParallel(h, a);
      var c :| c in h && c.from == a.from && c.to == a.to && c.weight <= a.weight;
      ReachesArc(h, c);
      ReachesLonger(h, a.from, a.to, c.weight, a.weight);
    }
  }

  /** Some walk in g is no heavier than arc x followed by arc y. */
  ghost predicate Bypassed(g: Graph, x: Arc, y: Arc) {
    x.from != y.to ==> Reaches(g, x.from, y.to, x.weight + y.weight)
  }

  /** The graph g0 has been changed to g for the contraction of v: the arcs at v are as they
      were, and shortcuts offer no walk that g0 did not have. */
  ghost predicate Contracting(g0: Graph, g: Graph, v: int) {
    && (forall a :: !Avoids(a, v) ==> (a in g <==> a in g0))
    && Covers(Around(g, v), Around(g0, v))
    && Covers(g0, g)
  }

  lemma SameNeighbors(g0: Graph, g: Graph, v: int)
    requires Contracting(g0, g, v)
    ensures forall u :: Adjacent(g, v, u) <==> Adjacent(g0, v, u)
  {
    forall u ensures Adjacent(g, v, u) <==> Adjacent(g0, v, u) {
      if a :| a in g && ((a.from == v && a.to == u) || (a.from == u && a.to == v)) {
        assert a in g0;
      }
      if a :| a in g0 && ((a.from == v && a.to == u) || (a.from == u && a.to == v)) {
        assert a in g;
      }
    }
  }

  lemma ContractingStart(g: Graph, v: int)
    ensures Contracting(g, g, v)
  {
    CoversSubset(Around(g, v), Around(g, v));
    CoversSubset(g, g);
  }

  /** A shortcut over the pair x, y may be added, replacing a heavier parallel arc. */
  lemma ShortcutStep(g0: Graph, g: Graph, g': Graph, v: int, x: Arc, y: Arc, shortcut: Arc, replaced: iset<Arc>)
    requires Contracting(g0, g, v) && x in g && y in g && x.to == v && y.from == v && x.from != v && y.to != v
    requires shortcut.from == x.from && shortcut.to == y.to && shortcut.weight == x.weight + y.weight
    requires forall a :: a in replaced ==> a.from == x.from && a.to == y.to && a.weight >= shortcut.weight
    requires g' == g - replaced + iset{shortcut}
    ensures Contracting(g0, g', v) && Dominates(Around(g', v), Around(g, v)) && Bypassed(Around(g', v), x, y)
  {
    ReachesArc(Around(g', v), shortcut);
    forall a | a in Around(g, v) ensures HasParallel(Around(g', v), a) {
      assert (if a in replaced then shortcut else a) in Around(g', v);
    }
    DominatesCovers(Around(g', v), Around(g, v));
    CoversTransitive(Around(g', v), Around(g, v), Around(g0, v));
    forall a | a in g' ensures Reaches(g0, a.from, a.to, a.weight) {
      if a == shortcut {
        ReachesArc(g0, x);
        ReachesArc(g0, y);
        ReachesJoin(g0, x.from, v, y.to, x.weight, y.weight);
      }
    }
  }

  lemma BypassedCovered(h: Graph, g: Graph, x: Arc, y: Arc)
    requires Covers(h, g) && Bypassed(g, x, y)
    ensures Bypassed(h, x, y)
  {
    if x.from != y.to {
      CoversReaches(h, g, x.from, y.to, x.weight + y.weight);
    }
  }

  /** Every way over v is bypassed. */
  ghost predicate Contractible(g0: Graph, g: Graph, v: int) {
    && Contracting(g0, g, v) && NonNegative(g0)
    && (forall a :: a in g0 ==> a.from != a.to)
    && forall x, y :: x in g0 && y in g0 && x.to == v && y.from == v ==> Bypassed(Around(g, v), x, y)
  }

  /** Every walk between other nodes is replaced by one that avoids v and is no heavier. */
  lemma {:induction false} WalkAround(g0: Graph, g: Graph, v: int, s: int, t: int, p: Walk)
    requires Contractible(g0, g, v) && IsWalk(g0, s, t, p) && s != v && t != v
    ensures Reaches(Around(g, v), s, t, Length(p))
    decreases |p|
  {
    if p == [] {
      ReachesSelf(Around(g, v), s, 0.0);
      return;
    }
    WalkUncons(g0, s, t, p);
    var x, q := p[0], p[1..];
    if x.to != v {
      assert x in Around(g0, v);
      WalkAround(g0, g, v, x.to, t, q);
      ReachesJoin(Around(g, v), s, x.to, t, x.weight, Length(q));
      return;
    }
    WalkUncons(g0, v, t, q);
    var y, r := q[0], q[1..];
    WalkAround(g0, g, v, y.to, t, r);
    if y.to == s {
      LengthNonNegative(g0, [x]);
      ReachesLonger(Around(g, v), s, t, Length(r), Length(p));
    } else {
      assert Bypassed(Around(g, v), x, y);
      ReachesJoin(Around(g, v), s, y.to, t, x.weight + y.weight, Length(r));
    }
  }

  /** Removing a contracted node changes no distance between other nodes. */
  lemma ContractionKeepsDistances(g0: Graph, g: Graph, v: int, s: int, t: int, d: Weight)
    requires Contractible(g0, g, v) && s != v && t != v
    ensures IsDistance(Around(g, v), s, t, d) <==> IsDistance(g0, s, t, d)
  {
    var h := Around(g, v);
    forall p | IsWalk(g0, s, t, p) ensures Reaches(h, s, t, Length(p)) {
      WalkAround(g0, g, v, s, t, p);
    }
    CoversSubset(g, h);
    CoversTransitive(g0, g, h);
    forall p | IsWalk(h, s, t, p) ensures Reaches(g0, s, t, Length(p)) {
      CoversWalk(g0, h, s, t, p);
    }
    if IsDistance(g0, s, t, d) {
      SameDistance(g0, h, s, t, d);
    }
    if IsDistance(h, s, t, d) {
      SameDistance(h, g0, s, t, d);
    }
  }

  lemma SameDistance(g: Graph, h: Graph, s: int, t: int, d: Weight)
    requires forall p :: IsWalk(g, s, t, p) ==> Reaches(h, s, t, Length(p))
    requires forall p :: IsWalk(h, s, t, p) ==> Reaches(g, s, t, Length(p))
    requires IsDistance(g, s, t, d)
    ensures IsDistance(h, s, t, d)
  {
    forall p | IsWalk(h, s, t, p) ensures d.Fin? && d.value <= Length(p) {
      var q :| IsWalk(g, s, t, q) && Length(q) <= Length(p);
    }
    if d.Fin? {
      var p :| IsWalk(g, s, t, p) && Length(p) <= d.value;
      ReachesLonger(h, s, t, Length(p), d.value);
    }
  }

  // ----- a whole run of contractions

  /** A walk up to a remaining node, on through the core of remaining nodes, and down. */
  ghost predicate Via(up: Graph, core: Graph, down: Graph, s: int, x: int, y: int, t: int, a: real, b: real, c: real) {
    Reaches(up, s, x, a) && Reaches(core, x, y, b) && Reaches(down, y, t, c)
  }

  ghost predicate Routed(up: Graph, core: Graph, down: Graph, s: int, t: int, w: real) {
    exists x, y, a, b, c :: Via(up, core, down, s, x, y, t, a, b, c) && a + b + c <= w
  }

  /** Each walk of the base graph has an up-core-down walk that is no heavier. */
  ghost predicate Complete(base: Graph, up: Graph, core: Graph, down: Graph) {
    forall s, t, w :: Reaches(base, s, t, w) ==> Routed(up, core, down, s, t, w)
  }

  /** h has a copy of each arc of g that leaves v. */
  ghost predicate CopiesFrom(h: Graph, g: Graph, v: int) {
    forall a :: a in g && a.from == v ==> exists c :: c in h && c.from == v && c.to == a.to && c.weight == a.weight
  }

  ghost predicate CopiesTo(h: Graph, g: Graph, v: int) {
    forall a :: a in g && a.to == v ==> exists c :: c in h && c.from == a.from && c.to == v && c.weight == a.weight
  }

  lemma CompleteStart(base: Graph)
    ensures Complete(base, iset{}, base, iset{})
  {
    forall s, t, w | Reaches(base, s, t, w) ensures Routed(iset{}, base, iset{}, s, t, w) {
      ReachesSelf(iset{}, s, 0.0);
      ReachesSelf(iset{}, t, 0.0);
      assert Via(iset{}, base, iset{}, s, s, t, t, 0.0, w, 0.0);
    }
  }

  /** Leaving v first if the walk starts there. */
  lemma LeaveNode(g: Graph, up: Graph, v: int, x: int, y: int, p: Walk) returns (x': int, a: real, q: Walk)
    requires IsWalk(g, x, y, p) && CopiesFrom(up, g, v) && y != v
    requires forall a :: a in g ==> a.from != a.to
    ensures x' != v && Reaches(up, x, x', a) && IsWalk(g, x', y, q) && a + Length(q) == Length(p)
  {
    if x != v {
      ReachesSelf(up, x, 0.0);
      return x, 0.0, p;
    }
    WalkUncons(g, x, y, p);
    var c :| c in up && c.from == v && c.to == p[0].to && c.weight == p[0].weight;
    ReachesArc(up, c);
    return p[0].to, p[0].weight, p[1..];
  }

  /** Arriving at v last if the walk ends there. */
  lemma EnterNode(g: Graph, down: Graph, v: int, x: int, y: int, p: Walk) returns (y': int, c: real, q: Walk)
    requires IsWalk(g, x, y, p) && CopiesTo(down, g, v) && (x == v && y == v ==> p != [])
    requires forall a :: a in g ==> a.from != a.to
    ensures y' != v && Reaches(down, y', y, c) && IsWalk(g, x, y', q) && c + Length(q) == Length(p)
  {
    if y != v {
      ReachesSelf(down, y, 0.0);
      return y, 0.0, p;
    }
    var n := |p| - 1;
    WalkSplit(g, x, y, p, n);
    assert p[n..] == [p[n]];
    LengthOne(p[n]);
    assert p[n].from == NodeAt(x, p, n) by {
      if n > 0 { assert p[n - 1].to == p[n].from; }
    }
    var a :| a in down && a.from == p[n].from && a.to == v && a.weight == p[n].weight;
    ReachesArc(down, a);
    return p[n].from, p[n].weight, p[..n];
  }

  /** A core walk of the old graph continues up and down over the contracted node. */
  lemma CoreWalk(g0: Graph, g: Graph, v: int, up: Graph, down: Graph, x: int, y: int, p: Walk)
    requires Contractible(g0, g, v) && CopiesFrom(up, g0, v) && CopiesTo(down, g0, v)
    requires IsWalk(g0, x, y, p)
    ensures Routed(up, Around(g, v), down, x, y, Length(p))
  {
    var core := Around(g, v);
    if x == v && y == v {
      LengthNonNegative(g0, p);
      ReachesSelf(up, x, 0.0);
      ReachesSelf(core, x, 0.0);
      ReachesSelf(down, x, 0.0);
      assert Via(up, core, down, x, x, x, y, 0.0, 0.0, 0.0);
    } else {
      var y', c, q := EnterNode(g0, down, v, x, y, p);
      var x', a, r := LeaveNode(g0, up, v, x, y', q);
      WalkAround(g0, g, v, x', y', r);
      assert Via(up, core, down, x, x', y', y, a, Length(r), c);
    }
  }

  /** Contracting v keeps the base walks routed when its arcs are added to both sides. */
  lemma CompleteStep(base: Graph, up: Graph, g0: Graph, down: Graph, v: int, g: Graph, up': Graph, down': Graph)
    requires Complete(base, up, g0, down) && Contractible(g0, g, v)
    requires up <= up' && down <= down' && CopiesFrom(up', g0, v) && CopiesTo(down', g0, v)
    ensures Complete(base, up', Around(g, v), down')
  {
    CoversSubset(up', up);
    CoversSubset(down', down);
    forall s, t, w | Reaches(base, s, t, w) ensures Routed(up', Around(g, v), down', s, t, w) {
      var x, y, a, b, c :| Via(up, g0, down, s, x, y, t, a, b, c) && a + b + c <= w;
      var p :| IsWalk(g0, x, y, p) && Length(p) <= b;
      CoreWalk(g0, g, v, up', down', x, y, p);
      var x', y', a', b', c' :| Via(up', Around(g, v), down', x, x', y', y, a', b', c') && a' + b' + c' <= Length(p);
      CoversReaches(up', up, s, x, a);
      CoversReaches(down', down, y, t, c);
      ReachesJoin(up', s, x, x', a, a');
      ReachesJoin(down', y', y, t, c', c);
      assert Via(up', Around(g, v), down', s, x', y', t, a + a', b', c' + c);
    }
  }

  lemma FirstArc(g: Graph, p: Walk)
    requires InGraph(g, p)
    ensures p == [] || p[0] in g
  {
  }

  /** Once nothing remains, every base walk has an up-down walk that is no heavier. */
  lemma CompleteEnd(base: Graph, up: Graph, down: Graph, s: int, t: int, w: real) returns (m: int, a: real, c: real)
    requires Complete(base, up, iset{}, down) && Reaches(base, s, t, w)
    ensures Reaches(up, s, m, a) && Reaches(down, m, t, c) && a + c <= w
  {
    assert Routed(up, iset{}, down, s, t, w);
    var x, y, a', b, c' :| Via(up, iset{}, down, s, x, y, t, a', b, c') && a' + b + c' <= w;
    var p :| IsWalk(iset{}, x, y, p) && Length(p) <= b;
    FirstArc(iset{}, p);
    return x, a', c';
  }
}
