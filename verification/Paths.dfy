/** Extraction of the edge list of a path from the two labels it ends in. */
module Paths {
  import opened Walks
  import opened SearchTrees

  datatype Path = NotFound | Path(weight: real, fromNode: int, endNode: int, edges: seq<int>) {
    function Weight(): Weight {
      if NotFound? then Inf else Fin(weight)
    }
  }

  function ReversedIds(s: seq<int>): seq<int> {
    seq(|s|, i requires 0 <= i < |s| => s[|s| - 1 - i])
  }

  lemma ReversedConcat(a: seq<int>, b: seq<int>)
    ensures ReversedIds(a + b) == ReversedIds(b) + ReversedIds(a)
  {
  }

  /** The path is a walk from s to t of its weight, given by its edges in order. */
  ghost predicate Describes(g: Graph, s: int, t: int, path: Path) {
    path.Path? ==>
      && path.fromNode == s && path.endNode == t
      && exists p :: IsWalk(g, s, t, p) && Length(p) == path.weight && EdgeIds(p) == path.edges
  }

  lemma EdgeIdsConcat(p: Walk, q: Walk)
    ensures EdgeIds(p + q) == EdgeIds(p) + EdgeIds(q)
  {
  }

  /** Collects the edges from a label back to the root of its search. */
  method FollowParentsUntilRoot(e: SPTEntry) returns (root: SPTEntry, edges: seq<int>)
    ensures root.Root? && edges == EdgeIds(Backwards(e.Path()))
    ensures forall k: Task :: k.EntryOk(e) ==> root.adjNode == k.root
    ensures e.Root? ==> root == e
  {
    root, edges := e, [];
    while root.Child?
      invariant EdgeIds(Backwards(e.Path())) == edges + EdgeIds(Backwards(root.Path()))
      invariant forall k: Task :: k.EntryOk(e) ==> k.EntryOk(root)
      invariant e.Root? ==> root == e
      decreases root
    {
      assert Backwards(root.Path()) == [Flip(root.Step())] + Backwards(root.parent.Path());
      edges := edges + [root.edge];
      root := root.parent;
    }
  }

  /** Forward edges back to the source, turned round, then backward edges on to the target. */
  method Extract(weight: real, fwd: SPTEntry, bwd: SPTEntry) returns (path: Path)
    ensures path.Path? && path.weight == weight && path.edges == EdgeIds(fwd.Path() + Backwards(bwd.Path()))
    ensures forall k: Task :: IsEnd(k, fwd) ==> path.fromNode == k.root
    ensures forall k: Task :: IsEnd(k, bwd) ==> path.endNode == k.root
  {
    var fwdRoot, fwdEdges := FollowParentsUntilRoot(fwd);
    var bwdRoot, bwdEdges := FollowParentsUntilRoot(bwd);
    ghost var p := fwd.Path();
    forall i | 0 <= i < |p| ensures ReversedIds(fwdEdges)[i] == EdgeIds(p)[i] {
      assert Backwards(p)[|p| - 1 - i] == Flip(p[i]);
    }
    assert ReversedIds(fwdEdges) == EdgeIds(p);
    EdgeIdsConcat(fwd.Path(), Backwards(bwd.Path()));
    path := Path(weight, fwdRoot.adjNode, bwdRoot.adjNode, ReversedIds(fwdEdges) + bwdEdges);
  }
}
