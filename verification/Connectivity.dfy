/** Reachability and strong connection in a directed graph given by successor lists. */
module Connectivity {

  /** The keys are 0 to |g| - 1; each has a list of the keys that may follow it. */
  type Successors = seq<seq<int>>

  ghost predicate AreKeys(g: Successors, ks: seq<int>) {
    forall i :: 0 <= i < |ks| ==> 0 <= ks[i] < |g|
  }

  ghost predicate ValidGraph(g: Successors) {
    forall x {:trigger AreKeys(g, g[x])} :: 0 <= x < |g| ==> AreKeys(g, g[x])
  }

  ghost predicate IsEdge(g: Successors, x: int, y: int) {
    0 <= x < |g| && y in g[x]
  }

  /** The keys p lead from x to y, one edge at a time. */
  ghost predicate IsPath(g: Successors, x: int, p: seq<int>, y: int)
    decreases |p|
  {
    if p == [] then x == y else IsEdge(g, x, p[0]) && IsPath(g, p[0], p[1..], y)
  }

  ghost predicate Reach(g: Successors, x: int, y: int) {
    exists p :: IsPath(g, x, p, y)
  }

  ghost predicate Mutual(g: Successors, x: int, y: int) {
    Reach(g, x, y) && Reach(g, y, x)
  }

  /** A set of keys that reach each other, and no more keys do. */
  ghost predicate IsComponent(g: Successors, c: set<int>) {
    c != {} && forall x, y {:trigger Mutual(g, x, y)} :: x in c ==> (Mutual(g, x, y) <==> y in c)
  }

  lemma ReachSelf(g: Successors, x: int)
    ensures Reach(g, x, x)
  {
    assert IsPath(g, x, [], x);
  }

  lemma ReachEdge(g: Successors, x: int, y: int)
    requires IsEdge(g, x, y)
    ensures Reach(g, x, y)
  {
    assert IsPath(g, y, [y][1..], y);
    assert IsPath(g, x, [y], y);
  }

  lemma {:induction false} PathConcat(g: Successors, x: int, p: seq<int>, y: int, q: seq<int>, z: int)
    requires IsPath(g, x, p, y) && IsPath(g, y, q, z)
    ensures IsPath(g, x, p + q, z)
    decreases |p|
  {
    if p == [] {
      assert p + q == q;
    } else {
      PathConcat(g, p[0], p[1..], y, q, z);
      assert (p + q)[1..] == p[1..] + q;
    }
  }

  lemma ReachTrans(g: Successors, x: int, y: int, z: int)
    requires Reach(g, x, y) && Reach(g, y, z)
    ensures Reach(g, x, z)
  {
    var p :| IsPath(g, x, p, y);
    var q :| IsPath(g, y, q, z);
    PathConcat(g, x, p, y, q, z);
  }

  /** A path that leaves a set does so over an edge. */
  lemma {:induction false} ExitPath(g: Successors, x: int, p: seq<int>, y: int, inside: set<int>) returns (u: int, v: int)
    requires IsPath(g, x, p, y) && x in inside && y !in inside
    ensures u in inside && v !in inside && IsEdge(g, u, v) && Reach(g, x, u) && Reach(g, v, y)
    decreases |p|
  {
    if p[0] in inside {
      u, v := ExitPath(g, p[0], p[1..], y, inside);
      ReachEdge(g, x, p[0]);
      ReachTrans(g, x, p[0], u);
    } else {
      u, v := x, p[0];
      ReachSelf(g, x);
    }
  }

  lemma Exit(g: Successors, x: int, y: int, inside: set<int>) returns (u: int, v: int)
    requires Reach(g, x, y) && x in inside && y !in inside
    ensures u in inside && v !in inside && IsEdge(g, u, v) && Reach(g, x, u) && Reach(g, v, y)
  {
    var p :| IsPath(g, x, p, y);
    u, v := ExitPath(g, x, p, y, inside);
  }

  /** Keys that reach each other through one key form a component when no edge leads on to a
      key that could lead back. */
  lemma ComponentFrom(g: Successors, c: set<int>, root: int)
    requires root in c && forall x :: x in c ==> Mutual(g, root, x)
    requires forall u, v :: u in c && IsEdge(g, u, v) && v !in c ==> !Reach(g, v, root)
    ensures IsComponent(g, c)
  {
    forall x, y | x in c ensures Mutual(g, x, y) <==> y in c {
      if y in c {
        ReachTrans(g, x, root, y);
        ReachTrans(g, y, root, x);
      } else if Mutual(g, x, y) {
        var u, v := Exit(g, x, y, c);
        ReachTrans(g, v, y, x);
        ReachTrans(g, v, x, root);
      }
    }
  }

  // ----- cutting the edges out of some keys

  ghost function Cut(g: Successors, cut: set<int>): Successors {
    seq(|g|, x requires 0 <= x < |g| => if x in cut then [] else g[x])
  }

  lemma {:induction false} PathInCut(g: Successors, cut: set<int>, x: int, p: seq<int>, y: int)
    requires IsPath(Cut(g, cut), x, p, y)
    ensures IsPath(g, x, p, y)
    decreases |p|
  {
    if p != [] {
      PathInCut(g, cut, p[0], p[1..], y);
    }
  }

  lemma ReachInCut(g: Successors, cut: set<int>, x: int, y: int)
    requires Reach(Cut(g, cut), x, y)
    ensures Reach(g, x, y)
  {
    var p :| IsPath(Cut(g, cut), x, p, y);
    PathInCut(g, cut, x, p, y);
  }

  /** A path survives the cut up to the first cut key on it. */
  lemma {:induction false} PathToCut(g: Successors, cut: set<int>, x: int, p: seq<int>, y: int) returns (c: int)
    requires IsPath(g, x, p, y) && !Reach(Cut(g, cut), x, y)
    ensures c in cut && Reach(g, x, c) && Reach(g, c, y) && c != y
    decreases |p|
  {
    if p == [] {
      ReachSelf(Cut(g, cut), x);
    }
    if x in cut {
      ReachSelf(g, x);
      ReachSelf(Cut(g, cut), x);
      return x;
    }
    if Reach(Cut(g, cut), p[0], y) {
      ReachEdge(Cut(g, cut), x, p[0]);
      ReachTrans(Cut(g, cut), x, p[0], y);
    }
    c := PathToCut(g, cut, p[0], p[1..], y);
    ReachEdge(g, x, p[0]);
    ReachTrans(g, x, p[0], c);
  }

  ghost predicate Alone(g: Successors, x: int) {
    forall y :: Mutual(g, x, y) ==> y == x
  }

  ghost predicate SameComponents(g: Successors, h: Successors) {
    forall x, y :: Mutual(g, x, y) <==> Mutual(h, x, y)
  }

  /** Cutting the edges out of keys leaves the components as they are exactly when each of
      those keys is a component by itself. */
  lemma CutComponents(g: Successors, cut: set<int>)
    requires forall x :: x in cut ==> 0 <= x < |g|
    ensures SameComponents(Cut(g, cut), g) <==> forall x :: x in cut ==> Alone(g, x)
  {
    var h := Cut(g, cut);
    if forall x :: x in cut ==> Alone(g, x) {
      forall x, y | Mutual(g, x, y) ensures Mutual(h, x, y) {
        KeptByCut(g, cut, x, y);
        KeptByCut(g, cut, y, x);
      }
      forall x, y | Mutual(h, x, y) ensures Mutual(g, x, y) {
        ReachInCut(g, cut, x, y);
        ReachInCut(g, cut, y, x);
      }
    }
    if SameComponents(h, g) {
      forall x, y | x in cut && Mutual(g, x, y) ensures y == x {
        assert Mutual(h, x, y);
        var p :| IsPath(h, x, p, y);
        assert p == [] || IsEdge(h, x, p[0]);
      }
    }
  }

  lemma KeptByCut(g: Successors, cut: set<int>, x: int, y: int)
    requires Mutual(g, x, y) && forall c :: c in cut ==> Alone(g, c)
    ensures Reach(Cut(g, cut), x, y)
  {
    if !Reach(Cut(g, cut), x, y) {
      var p :| IsPath(g, x, p, y);
      var c := PathToCut(g, cut, x, p, y);
      ReachTrans(g, y, x, c);
      assert Mutual(g, c, y);
    }
  }

  // ----- graphs with the same edges

  ghost predicate SameEdges(g: Successors, h: Successors) {
    |g| == |h| && forall x, y :: IsEdge(g, x, y) <==> IsEdge(h, x, y)
  }

  lemma {:induction false} SamePath(g: Successors, h: Successors, x: int, p: seq<int>, y: int)
    requires SameEdges(g, h) && IsPath(g, x, p, y)
    ensures IsPath(h, x, p, y)
    decreases |p|
  {
    if p != [] {
      SamePath(g, h, p[0], p[1..], y);
    }
  }

  lemma SameReach(g: Successors, h: Successors)
    requires SameEdges(g, h)
    ensures forall x, y :: Reach(g, x, y) <==> Reach(h, x, y)
  {
    forall x, y ensures Reach(g, x, y) <==> Reach(h, x, y) {
      if Reach(g, x, y) {
        var p :| IsPath(g, x, p, y);
        SamePath(g, h, x, p, y);
      }
      if Reach(h, x, y) {
        var p :| IsPath(h, x, p, y);
        SamePath(h, g, x, p, y);
      }
    }
  }

  lemma SameCut(g: Successors, h: Successors, cut: set<int>)
    requires SameEdges(g, h)
    ensures SameEdges(Cut(g, cut), Cut(h, cut))
  {
    forall x, y ensures IsEdge(Cut(g, cut), x, y) <==> IsEdge(Cut(h, cut), x, y) {
      assert IsEdge(g, x, y) <==> IsEdge(h, x, y);
    }
  }
}
