/** Weighted directed multigraphs and the walks in them: the vocabulary in which
    every routing result of this project is stated. */
module Walks {

  const NO_EDGE := -1

  /** The weight of an edge in one direction; Inf closes that direction. */
  datatype Weight = Fin(value: real) | Inf {
    predicate AtMost(other: Weight) {
      other.Inf? || (Fin? && value <= other.value)
    }

    function Plus(other: Weight): Weight {
      if Fin? && other.Fin? then Fin(value + other.value) else Inf
    }
  }

  datatype Arc = Arc(edge: int, from: int, to: int, weight: real)

  type Graph = iset<Arc>
  type Walk = seq<Arc>

  ghost predicate NonNegative(g: Graph) {
    forall a :: a in g ==> a.weight >= 0.0
  }

  ghost predicate Linked(p: Walk) {
    forall i, j :: 0 <= i && j == i + 1 && j < |p| ==> p[i].to == p[j].from
  }

  ghost predicate InGraph(g: Graph, p: Walk) {
    forall i :: 0 <= i < |p| ==> p[i] in g
  }

  ghost predicate Joins(p: Walk, s: int, t: int) {
    if p == [] then s == t else p[0].from == s && p[|p| - 1].to == t
  }

  ghost predicate IsWalk(g: Graph, s: int, t: int, p: Walk) {
    InGraph(g, p) && Linked(p) && Joins(p, s, t)
  }

  ghost function Length(p: Walk): real {
    if p == [] then 0.0 else Length(p[..|p| - 1]) + p[|p| - 1].weight
  }

  ghost function EdgeIds(p: Walk): seq<int> {
    seq(|p|, i requires 0 <= i < |p| => p[i].edge)
  }

  /** The node reached after the first i arcs of a walk that starts at s. */
  ghost function NodeAt(s: int, p: Walk, i: nat): int
    requires i <= |p|
  {
    if i == 0 then s else p[i - 1].to
  }

  /** Some walk from s to t weighs at most w. */
  ghost predicate Reaches(g: Graph, s: int, t: int, w: real) {
    exists p :: IsWalk(g, s, t, p) && Length(p) <= w
  }

  /** d is the weight of a lightest walk from s to t, and Inf when there is no walk. */
  ghost predicate IsDistance(g: Graph, s: int, t: int, d: Weight) {
    match d
    case Fin(w) => Reaches(g, s, t, w) && (forall p :: IsWalk(g, s, t, p) ==> w <= Length(p))
    case Inf => forall p :: !IsWalk(g, s, t, p)
  }

  // ----- concatenation and splitting

  lemma {:induction false} LengthConcat(p: Walk, q: Walk)
    ensures Length(p + q) == Length(p) + Length(q)
  {
    if q == [] {
      assert p + q == p;
    } else {
      var r := q[..|q| - 1];
      assert (p + q)[..|p + q| - 1] == p + r;
      LengthConcat(p, r);
    }
  }

  lemma LengthOne(a: Arc)
    ensures Length([a]) == a.weight
  {
    assert [a][..0] == [];
    assert Length([]) == 0.0;
  }

  lemma {:induction false} LengthNonNegative(g: Graph, p: Walk)
    requires NonNegative(g) && InGraph(g, p)
    ensures Length(p) >= 0.0
  {
    if p != [] {
      LengthNonNegative(g, p[..|p| - 1]);
      assert p[|p| - 1] in g;
    }
  }

  lemma WalkConcat(g: Graph, s: int, m: int, t: int, p: Walk, q: Walk)
    requires IsWalk(g, s, m, p) && IsWalk(g, m, t, q)
    ensures IsWalk(g, s, t, p + q) && Length(p + q) == Length(p) + Length(q)
  {
    LengthConcat(p, q);
    var r := p + q;
    forall i, j | 0 <= i && j == i + 1 && j < |r| ensures r[i].to == r[j].from {
      if j < |p| {
        assert r[i] == p[i] && r[j] == p[j];
      } else if i >= |p| {
        assert r[i] == q[i - |p|] && r[j] == q[j - |p|];
      }
    }
  }

  lemma WalkSnoc(g: Graph, s: int, p: Walk, a: Arc)
    requires IsWalk(g, s, a.from, p) && a in g
    ensures IsWalk(g, s, a.to, p + [a]) && Length(p + [a]) == Length(p) + a.weight
  {
    LengthOne(a);
    WalkConcat(g, s, a.from, a.to, p, [a]);
  }

  lemma WalkSplit(g: Graph, s: int, t: int, p: Walk, i: nat)
    requires IsWalk(g, s, t, p) && i <= |p|
    ensures IsWalk(g, s, NodeAt(s, p, i), p[..i])
    ensures IsWalk(g, NodeAt(s, p, i), t, p[i..])
    ensures Length(p) == Length(p[..i]) + Length(p[i..])
  {
    assert p == p[..i] + p[i..];
    LengthConcat(p[..i], p[i..]);
    RestIsWalk(g, s, t, p, i);
  }

  lemma RestIsWalk(g: Graph, s: int, t: int, p: Walk, i: nat)
    requires IsWalk(g, s, t, p) && i <= |p|
    ensures IsWalk(g, NodeAt(s, p, i), t, p[i..])
  {
    RestLinked(p, i);
    if 0 < i < |p| {
      assert p[i - 1].to == p[i].from;
    }
  }

  lemma RestLinked(p: Walk, i: nat)
    requires Linked(p) && i <= |p|
    ensures Linked(p[i..])
  {
    var r := p[i..];
    forall k, j | 0 <= k && j == k + 1 && j < |r| ensures r[k].to == r[j].from {
      assert r[k] == p[k + i] && r[j] == p[j + i];
    }
  }

  lemma WalkUncons(g: Graph, s: int, t: int, p: Walk)
    requires IsWalk(g, s, t, p) && p != []
    ensures p[0] in g && p[0].from == s && IsWalk(g, p[0].to, t, p[1..])
    ensures Length(p) == p[0].weight + Length(p[1..])
  {
    WalkSplit(g, s, t, p, 1);
    assert p[..1] == [p[0]];
    LengthOne(p[0]);
  }

  // ----- reversal

  function Flip(a: Arc): Arc {
    Arc(a.edge, a.to, a.from, a.weight)
  }

  ghost function Reversed(g: Graph): Graph {
    iset a | a in g :: Flip(a)
  }

  ghost function Backwards(p: Walk): Walk {
    seq(|p|, i requires 0 <= i < |p| => Flip(p[|p| - 1 - i]))
  }

  lemma {:induction false} LengthBackwards(p: Walk)
    ensures Length(Backwards(p)) == Length(p)
  {
    if p != [] {
      var q, a := p[..|p| - 1], p[|p| - 1];
      assert Backwards(p) == [Flip(a)] + Backwards(q);
      LengthConcat([Flip(a)], Backwards(q));
      LengthOne(Flip(a));
      LengthBackwards(q);
    }
  }

  lemma FlipMember(g: Graph, a: Arc)
    ensures a in Reversed(g) <==> Flip(a) in g
  {
    assert Flip(Flip(a)) == a;
  }

  lemma WalkBackwards(g: Graph, s: int, t: int, p: Walk)
    requires IsWalk(g, s, t, p)
    ensures IsWalk(Reversed(g), t, s, Backwards(p)) && Length(Backwards(p)) == Length(p)
  {
    LengthBackwards(p);
    var r := Backwards(p);
    forall i | 0 <= i < |r| ensures r[i] in Reversed(g) {
      assert p[|p| - 1 - i] in g;
    }
    forall i, j | 0 <= i && j == i + 1 && j < |r| ensures r[i].to == r[j].from {
      assert p[|p| - 1 - j].to == p[|p| - 1 - i].from;
    }
  }

  lemma ReversedTwice(g: Graph)
    ensures Reversed(Reversed(g)) == g
  {
    forall a ensures a in Reversed(Reversed(g)) <==> a in g {
      FlipMember(Reversed(g), a);
      FlipMember(g, Flip(a));
      assert Flip(Flip(a)) == a;
    }
  }

  // ----- weight-bounded reachability

  lemma ReachesSelf(g: Graph, s: int, w: real)
    requires w >= 0.0
    ensures Reaches(g, s, s, w)
  {
    assert IsWalk(g, s, s, []);
  }

  lemma ReachesArc(g: Graph, a: Arc)
    requires a in g
    ensures Reaches(g, a.from, a.to, a.weight)
  {
    LengthOne(a);
    assert IsWalk(g, a.from, a.to, [a]);
  }

  lemma ReachesWalk(g: Graph, s: int, t: int, p: Walk)
    requires IsWalk(g, s, t, p)
    ensures Reaches(g, s, t, Length(p))
  {
  }

  lemma ReachesLonger(g: Graph, s: int, t: int, w: real, w': real)
    requires Reaches(g, s, t, w) && w <= w'
    ensures Reaches(g, s, t, w')
  {
  }

  lemma ReachesJoin(g: Graph, s: int, m: int, t: int, v: real, w: real)
    requires Reaches(g, s, m, v) && Reaches(g, m, t, w)
    ensures Reaches(g, s, t, v + w)
  {
    var p :| IsWalk(g, s, m, p) && Length(p) <= v;
    var q :| IsWalk(g, m, t, q) && Length(q) <= w;
    WalkConcat(g, s, m, t, p, q);
  }

  lemma ReachesReversed(g: Graph, s: int, t: int, w: real)
    requires Reaches(g, s, t, w)
    ensures Reaches(Reversed(g), t, s, w)
  {
    var p :| IsWalk(g, s, t, p) && Length(p) <= w;
    WalkBackwards(g, s, t, p);
  }

  /** h offers a walk no heavier than each arc of g. */
  ghost predicate Covers(h: Graph, g: Graph) {
    forall a :: a in g ==> Reaches(h, a.from, a.to, a.weight)
  }

  lemma {:induction false} CoversWalk(h: Graph, g: Graph, s: int, t: int, p: Walk)
    requires Covers(h, g) && IsWalk(g, s, t, p)
    ensures Reaches(h, s, t, Length(p))
    decreases |p|
  {
    if p == [] {
      ReachesSelf(h, s, 0.0);
    } else {
      WalkUncons(g, s, t, p);
      CoversWalk(h, g, p[0].to, t, p[1..]);
      ReachesJoin(h, s, p[0].to, t, p[0].weight, Length(p[1..]));
    }
  }

  lemma CoversReaches(h: Graph, g: Graph, s: int, t: int, w: real)
    requires Covers(h, g) && Reaches(g, s, t, w)
    ensures Reaches(h, s, t, w)
  {
    var p :| IsWalk(g, s, t, p) && Length(p) <= w;
    CoversWalk(h, g, s, t, p);
  }

  lemma CoversTransitive(k: Graph, h: Graph, g: Graph)
    requires Covers(k, h) && Covers(h, g)
    ensures Covers(k, g)
  {
    forall a | a in g ensures Reaches(k, a.from, a.to, a.weight) {
      CoversReaches(k, h, a.from, a.to, a.weight);
    }
  }

  lemma CoversSubset(h: Graph, g: Graph)
    requires g <= h
    ensures Covers(h, g)
  {
    forall a | a in g ensures Reaches(h, a.from, a.to, a.weight) {
      ReachesArc(h, a);
    }
  }
}
