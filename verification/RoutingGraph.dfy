/** The adjacency view the searches read: per node, the edges touching it with their
    weights in both directions. */
module RoutingGraphs {
  import opened Walks

  /** One end of an edge, seen from a node: the weight of leaving over it and of arriving over it. */
  datatype HalfEdge = HalfEdge(edge: int, adj: int, leaving: Weight, arriving: Weight) {
    function WeightOf(reverse: bool): Weight {
      if reverse then arriving else leaving
    }

    function Opposite(node: int): HalfEdge {
      HalfEdge(edge, node, arriving, leaving)
    }
  }

  type Adjacency = seq<seq<HalfEdge>>

  function StepArc(node: int, h: HalfEdge, reverse: bool): Arc
    requires h.WeightOf(reverse).Fin?
  {
    Arc(h.edge, node, h.adj, h.WeightOf(reverse).value)
  }

  /** Edge end h is recorded at node u. */
  ghost predicate HasEnd(g: Adjacency, u: int, h: HalfEdge) {
    0 <= u < |g| && h in g[u]
  }

  ghost predicate IsStep(g: Adjacency, reverse: bool, a: Arc) {
    exists h :: HasEnd(g, a.from, h) && h.WeightOf(reverse).Fin? && a == StepArc(a.from, h, reverse)
  }

  /** The arcs in the order a search walks them: against their direction when reverse. */
  ghost function Steps(g: Adjacency, reverse: bool): Graph {
    iset a | IsStep(g, reverse, a)
  }

  ghost predicate NonNegativeWeights(g: Adjacency) {
    forall u, h {:trigger HasEnd(g, u, h)} :: HasEnd(g, u, h) ==>
      && (h.leaving.Fin? ==> h.leaving.value >= 0.0)
      && (h.arriving.Fin? ==> h.arriving.value >= 0.0)
  }

  ghost predicate InRange(g: Adjacency) {
    forall u, h {:trigger HasEnd(g, u, h)} :: HasEnd(g, u, h) ==> 0 <= h.adj < |g| && h.edge >= 0 && h.adj != u
  }

  /** Both ends of an edge record it, with the two weights exchanged. */
  ghost predicate Symmetric(g: Adjacency) {
    forall u, h {:trigger HasEnd(g, u, h)} :: HasEnd(g, u, h) ==> HasEnd(g, h.adj, h.Opposite(u))
  }

  /** An edge id names one edge between one pair of nodes. */
  ghost predicate EdgeIdsUnique(g: Adjacency) {
    forall u, h, v, k {:trigger HasEnd(g, u, h), HasEnd(g, v, k)} ::
      HasEnd(g, u, h) && HasEnd(g, v, k) && h.edge == k.edge ==>
        if u == v then h == k else h.adj == v && k == h.Opposite(u)
  }

  /** A stored road network: undirected storage of directed weights, without loops. */
  ghost predicate ValidGraph(g: Adjacency) {
    NonNegativeWeights(g) && InRange(g) && Symmetric(g) && EdgeIdsUnique(g)
  }

  lemma StepsNonNegative(g: Adjacency, reverse: bool)
    requires NonNegativeWeights(g) && InRange(g)
    ensures NonNegative(Steps(g, reverse))
    ensures forall a :: a in Steps(g, reverse) ==> a.edge != NO_EDGE
    ensures forall a :: a in Steps(g, reverse) ==> 0 <= a.from < |g| && 0 <= a.to < |g|
  {
  }

  lemma StepsReversed(g: Adjacency, reverse: bool)
    requires Symmetric(g)
    ensures Reversed(Steps(g, reverse)) == Steps(g, !reverse)
  {
    forall a, r | IsStep(g, r, a) ensures IsStep(g, !r, Flip(a)) {
      var h :| HasEnd(g, a.from, h) && h.WeightOf(r).Fin? && a == StepArc(a.from, h, r);
      assert HasEnd(g, a.to, h.Opposite(a.from)) && Flip(a) == StepArc(a.to, h.Opposite(a.from), !r);
    }
    forall a ensures a in Reversed(Steps(g, reverse)) <==> a in Steps(g, !reverse) {
      FlipMember(Steps(g, reverse), a);
      assert Flip(Flip(a)) == a;
    }
  }
}
