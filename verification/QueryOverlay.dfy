/** The query graph: edges that positions are snapped to are split at these positions. */
module QueryOverlays {

  datatype Point = Point(lat: real, lon: real, ele: real)

  /** A position on an edge: at a pillar, or between the point with its index and the next one. */
  datatype Snap = Snap(wayIndex: int, pillar: bool, point: Point)

  /** An edge seen in one direction, with all its points. */
  datatype ClosestEdge = ClosestEdge(key: int, baseNode: int, adjNode: int, points: seq<Point>)

  datatype VirtualEdge = VirtualEdge(originalKey: int, key: int, baseNode: int, adjNode: int, points: seq<Point>)

  function ReverseKey(key: int): int {
    if key % 2 == 0 then key + 1 else key - 1
  }

  function EdgeOfKey(key: int): int {
    key / 2
  }

  function Reversed(ps: seq<Point>): (r: seq<Point>)
    ensures |r| == |ps| && forall i :: 0 <= i < |ps| ==> r[i] == ps[|ps| - 1 - i]
  {
    seq(|ps|, i requires 0 <= i < |ps| => ps[|ps| - 1 - i])
  }

  /** The same way back. */
  function Back(e: VirtualEdge): VirtualEdge {
    VirtualEdge(ReverseKey(e.originalKey), e.key + 1, e.adjNode, e.baseNode, Reversed(e.points))
  }

  /** One edge leads back over the way of the other: between the same nodes, over the same points
      from the last to the first, with the next key and the other key of the original edge. */
  ghost predicate LeadsBack(e: VirtualEdge, back: VirtualEdge) {
    && back.baseNode == e.adjNode && back.adjNode == e.baseNode && back.key == e.key + 1
    && |back.points| == |e.points| && (forall i {:trigger back.points[i]} :: 0 <= i < |e.points| ==> back.points[i] == e.points[|e.points| - 1 - i])
    && back.originalKey != e.originalKey && back.originalKey / 2 == e.originalKey / 2
  }

  lemma BackLeadsBack(e: VirtualEdge)
    ensures LeadsBack(e, Back(e))
  {
  }

  // ----- snaps seen from the other end of the edge

  function ReversedSnap(s: Snap, n: int): Snap {
    s.(wayIndex := if s.pillar then n - s.wayIndex - 1 else n - s.wayIndex - 2)
  }

  ghost predicate SnapOk(s: Snap, full: seq<Point>) {
    if s.pillar then 0 < s.wayIndex < |full| - 1 && s.point == full[s.wayIndex] else 0 <= s.wayIndex <= |full| - 2
  }

  /** Reversed, a snap is at the same pillar, or between the same two points. */
  lemma {:induction false} ReversedSnapOk(s: Snap, full: seq<Point>)
    requires SnapOk(s, full)
    ensures var r := ReversedSnap(s, |full|);
            && SnapOk(r, Reversed(full))
            && (!s.pillar ==> Reversed(full)[r.wayIndex] == full[s.wayIndex + 1] && Reversed(full)[r.wayIndex + 1] == full[s.wayIndex])
  {
  }

  // ----- the geometry

  /** The points of an edge with each snapped point behind the point it follows. */
  ghost function Inserted(full: seq<Point>, snaps: seq<Snap>): seq<Point>
    decreases |snaps|
  {
    if snaps == [] then full else
    var s := snaps[|snaps| - 1];
    if 0 <= s.wayIndex < |full| then
      Inserted(full[..s.wayIndex + 1], snaps[..|snaps| - 1]) + (if s.pillar then [] else [s.point]) + full[s.wayIndex + 1..]
    else full
  }

  /** The points of one edge after the other; where they meet they share a point. */
  ghost function Joined(fwds: seq<VirtualEdge>): seq<Point> {
    if fwds == [] then [] else
    var last := fwds[|fwds| - 1].points;
    if |fwds| == 1 || last == [] then last else Joined(fwds[..|fwds| - 1]) + last[1..]
  }

  function Piece(prevPoint: Point, prevWayIndex: int, pillar: bool, point: Point, wayIndex: int, full: seq<Point>): seq<Point>
    requires 0 <= prevWayIndex <= wayIndex + 1 <= |full|
  {
    [prevPoint] + full[prevWayIndex..wayIndex + 1] + if pillar then [] else [point]
  }

  lemma {:induction false} InsertedGrows(full: seq<Point>, snaps: seq<Snap>, pw: int, k: int)
    requires 0 < pw <= k <= |full| && (snaps != [] ==> snaps[|snaps| - 1].wayIndex == pw - 1)
    ensures Inserted(full[..k], snaps) == Inserted(full[..pw], snaps) + full[pw..k]
  {
    if snaps != [] {
      var s := snaps[|snaps| - 1];
      assert full[..k][..s.wayIndex + 1] == full[..pw][..s.wayIndex + 1] == full[..pw];
      assert full[..k][s.wayIndex + 1..] == full[pw..k] && full[..pw][s.wayIndex + 1..] == [];
    } else {
      assert full[..k] == full[..pw] + full[pw..k];
    }
  }

  lemma {:induction false} JoinedMore(fwds: seq<VirtualEdge>, e: VirtualEdge)
    requires e.points != []
    ensures Joined(fwds + [e]) == if fwds == [] then e.points else Joined(fwds) + e.points[1..]
  {
    assert (fwds + [e])[..|fwds|] == fwds;
  }

  ghost function Mark(s: Snap): seq<Point> {
    if s.pillar then [] else [s.point]
  }

  lemma {:induction false} InsertedNext(full: seq<Point>, snaps: seq<Snap>, pw: int, s: Snap)
    requires 0 < pw <= s.wayIndex + 1 <= |full| && (snaps != [] ==> snaps[|snaps| - 1].wayIndex == pw - 1)
    ensures Inserted(full[..s.wayIndex + 1], snaps + [s]) == Inserted(full[..pw], snaps) + (full[pw..s.wayIndex + 1] + Mark(s))
  {
    var w := s.wayIndex;
    InsertedGrows(full, snaps, pw, w + 1);
    InsertedLast(full[..w + 1], snaps, s);
    var a, b, c := Inserted(full[..pw], snaps), full[pw..w + 1], Mark(s);
    assert (a + b) + c == a + (b + c);
  }

  lemma {:induction false} InsertedLast(full: seq<Point>, snaps: seq<Snap>, s: Snap)
    requires 0 <= s.wayIndex == |full| - 1
    ensures Inserted(full, snaps + [s]) == Inserted(full, snaps) + Mark(s)
  {
    assert full[..s.wayIndex + 1] == full && full[s.wayIndex + 1..] == [];
    assert (snaps + [s])[..|snaps|] == snaps;
  }

  /** The next piece takes the way on to the next snap. */
  lemma {:induction false} PieceJoins(full: seq<Point>, fwds: seq<VirtualEdge>, snaps: seq<Snap>, pw: int, prevPoint: Point, s: Snap, e: VirtualEdge)
    requires 0 < pw <= s.wayIndex + 1 <= |full| && (snaps != [] ==> snaps[|snaps| - 1].wayIndex == pw - 1)
    requires e.points == Piece(prevPoint, pw, s.pillar, s.point, s.wayIndex, full)
    requires if fwds == [] then snaps == [] && pw == 1 && prevPoint == full[0] else Joined(fwds) == Inserted(full[..pw], snaps)
    ensures Joined(fwds + [e]) == Inserted(full[..s.wayIndex + 1], snaps + [s])
  {
    InsertedNext(full, snaps, pw, s);
    var rest := full[pw..s.wayIndex + 1] + Mark(s);
    PieceIs(prevPoint, pw, s, full);
    if fwds == [] {
      FirstPoint(full);
    }
    Glue(fwds, e, prevPoint, rest, Inserted(full[..pw], snaps), Inserted(full[..s.wayIndex + 1], snaps + [s]));
  }

  lemma {:induction false} PieceIs(prevPoint: Point, pw: int, s: Snap, full: seq<Point>)
    requires 0 <= pw <= s.wayIndex + 1 <= |full|
    ensures Piece(prevPoint, pw, s.pillar, s.point, s.wayIndex, full) == [prevPoint] + (full[pw..s.wayIndex + 1] + Mark(s))
  {
  }

  lemma {:induction false} FirstPoint(full: seq<Point>)
    requires full != []
    ensures Inserted(full[..1], []) == [full[0]]
  {
  }

  lemma {:induction false} Glue(fwds: seq<VirtualEdge>, e: VirtualEdge, prevPoint: Point, rest: seq<Point>, a: seq<Point>, b: seq<Point>)
    requires e.points == [prevPoint] + rest && b == a + rest && (if fwds == [] then a == [prevPoint] else Joined(fwds) == a)
    ensures Joined(fwds + [e]) == b
  {
    JoinedMore(fwds, e);
    assert e.points[1..] == rest;
  }

  /** The last piece takes the way to the end of the edge. */
  lemma {:induction false} LastPieceJoins(full: seq<Point>, fwds: seq<VirtualEdge>, snaps: seq<Snap>, pw: int, prevPoint: Point, e: VirtualEdge)
    requires |full| >= 2 && 0 < pw <= |full| - 1 && snaps != [] && snaps[|snaps| - 1].wayIndex == pw - 1 && fwds != []
    requires e.points == Piece(prevPoint, pw, false, full[|full| - 1], |full| - 2, full)
    requires Joined(fwds) == Inserted(full[..pw], snaps)
    ensures Joined(fwds + [e]) == Inserted(full, snaps)
  {
    InsertedGrows(full, snaps, pw, |full|);
    assert full[..|full|] == full;
    assert e.points == [prevPoint] + full[pw..];
    Glue(fwds, e, prevPoint, full[pw..], Inserted(full[..pw], snaps), Inserted(full, snaps));
  }

  // ----- the chain of edges that takes the place of one

  /** The nodes of a chain over so many virtual nodes, from the base node to the adjacent one. */
  function ChainNode(edge: ClosestEdge, firstNode: int, m: nat, j: int): int {
    if j == 0 then edge.baseNode else if j <= m then firstNode + j - 1 else edge.adjNode
  }

  function ChainPoint(full: seq<Point>, snaps: seq<Snap>, j: int): Point
    requires full != []
  {
    if j == 0 then full[0] else if 0 < j <= |snaps| then snaps[j - 1].point else full[|full| - 1]
  }

  ghost predicate Connects(e: VirtualEdge, edge: ClosestEdge, from: int, to: int, p: Point, q: Point) {
    && e.originalKey == edge.key && e.baseNode == from && e.adjNode == to
    && |e.points| >= 2 && e.points[0] == p && e.points[|e.points| - 1] == q
  }

  /** Edge j of the chain leads between its neighbouring nodes, and from point to point. */
  ghost predicate LinkOk(edge: ClosestEdge, firstNode: int, m: nat, snaps: seq<Snap>, fwds: seq<VirtualEdge>, j: int)
    requires 0 <= j < |fwds| && edge.points != []
  {
    Connects(fwds[j], edge, ChainNode(edge, firstNode, m, j), ChainNode(edge, firstNode, m, j + 1),
             ChainPoint(edge.points, snaps, j), ChainPoint(edge.points, snaps, j + 1))
  }

  /** The edges so far: one to each snap taken, together the way to the last one. */
  ghost predicate ChainGrows(edge: ClosestEdge, firstNode: int, snaps: seq<Snap>, fwds: seq<VirtualEdge>, pw: int, prevPoint: Point, prevNode: int) {
    && |edge.points| >= 2 && |snaps| == |fwds| && 0 < pw <= |edge.points| - 1
    && prevPoint == ChainPoint(edge.points, snaps, |snaps|) && prevNode == ChainNode(edge, firstNode, |snaps|, |snaps|)
    && (if snaps == [] then pw == 1 else snaps[|snaps| - 1].wayIndex == pw - 1 && Joined(fwds) == Inserted(edge.points[..pw], snaps))
    && forall j :: 0 <= j < |fwds| ==> LinkOk(edge, firstNode, |snaps|, snaps, fwds, j)
  }

  /** The whole chain: with the snapped points put in, it has the points of the edge. */
  ghost predicate IsChain(edge: ClosestEdge, firstNode: int, snaps: seq<Snap>, fwds: seq<VirtualEdge>) {
    && |edge.points| >= 2 && snaps != [] && |fwds| == |snaps| + 1
    && Joined(fwds) == Inserted(edge.points, snaps)
    && forall j :: 0 <= j < |fwds| ==> LinkOk(edge, firstNode, |snaps|, snaps, fwds, j)
  }

  lemma {:induction false} ChainStep(edge: ClosestEdge, firstNode: int, snaps: seq<Snap>, fwds: seq<VirtualEdge>, pw: int, prevPoint: Point, prevNode: int,
                                     s: Snap, e: VirtualEdge)
    requires ChainGrows(edge, firstNode, snaps, fwds, pw, prevPoint, prevNode) && SnapOk(s, edge.points)
    requires pw <= s.wayIndex + 1 && (s.pillar ==> pw <= s.wayIndex)
    requires e.points == Piece(prevPoint, pw, s.pillar, s.point, s.wayIndex, edge.points)
    requires e.originalKey == edge.key && e.baseNode == prevNode && e.adjNode == firstNode + |snaps|
    ensures ChainGrows(edge, firstNode, snaps + [s], fwds + [e], s.wayIndex + 1, s.point, firstNode + |snaps|)
  {
    var snaps', fwds' := snaps + [s], fwds + [e];
    PieceJoins(edge.points, fwds, snaps, pw, prevPoint, s, e);
    forall j | 0 <= j < |fwds'| ensures LinkOk(edge, firstNode, |snaps'|, snaps', fwds', j) {
      if j < |fwds| {
        assert LinkOk(edge, firstNode, |snaps|, snaps, fwds, j);
      } else {
        PieceEnds(prevPoint, pw, s, edge.points);
      }
    }
  }

  lemma {:induction false} PieceEnds(prevPoint: Point, pw: int, s: Snap, full: seq<Point>)
    requires SnapOk(s, full) && 0 < pw <= s.wayIndex + 1 && (s.pillar ==> pw <= s.wayIndex)
    ensures var p := Piece(prevPoint, pw, s.pillar, s.point, s.wayIndex, full); |p| >= 2 && p[0] == prevPoint && p[|p| - 1] == s.point
  {
  }

  lemma {:induction false} ChainEnds(edge: ClosestEdge, firstNode: int, snaps: seq<Snap>, fwds: seq<VirtualEdge>, pw: int, prevPoint: Point, prevNode: int,
                                     e: VirtualEdge)
    requires ChainGrows(edge, firstNode, snaps, fwds, pw, prevPoint, prevNode) && snaps != []
    requires e.points == Piece(prevPoint, pw, false, edge.points[|edge.points| - 1], |edge.points| - 2, edge.points)
    requires e.originalKey == edge.key && e.baseNode == prevNode && e.adjNode == edge.adjNode
    ensures IsChain(edge, firstNode, snaps, fwds + [e])
  {
    var fwds' := fwds + [e];
    LastPieceJoins(edge.points, fwds, snaps, pw, prevPoint, e);
    forall j | 0 <= j < |fwds'| ensures LinkOk(edge, firstNode, |snaps|, snaps, fwds', j) {
      if j < |fwds| {
        assert LinkOk(edge, firstNode, |snaps|, snaps, fwds, j);
      }
    }
  }

  // ----- the slots of the virtual nodes

  const BASE_SNAP := 0
  const SNAP_BASE := 1
  const SNAP_ADJ := 2
  const ADJ_SNAP := 3

  /** The first edges of a chain at the slots from node n on: at each node the edge that leads to
      it, back and forth, and the next one. */
  ghost predicate SlotsOk(edges: seq<VirtualEdge>, n: nat, fwds: seq<VirtualEdge>, firstEdge: int) {
    && |edges| == (if fwds == [] then 4 * n else 4 * (n + |fwds|) - 2)
    && forall j {:trigger fwds[j]} :: 0 <= j < |fwds| ==>
         && edges[4 * (n + j)] == fwds[j] && edges[4 * (n + j) + SNAP_BASE] == Back(fwds[j])
         && (j > 0 ==> edges[4 * (n + j) - 2] == fwds[j] && edges[4 * (n + j) - 1] == Back(fwds[j]))
         && fwds[j].key == 2 * firstEdge + (if j == 0 then 4 * n else 4 * (n + j) - 2)
  }

  lemma {:induction false} SlotsStep(edges: seq<VirtualEdge>, n: nat, fwds: seq<VirtualEdge>, firstEdge: int, e: VirtualEdge)
    requires SlotsOk(edges, n, fwds, firstEdge) && e.key == 2 * firstEdge + |edges|
    ensures SlotsOk(edges + [e, Back(e)] + (if fwds == [] then [] else [e, Back(e)]), n, fwds + [e], firstEdge)
  {
    var edges', fwds' := edges + [e, Back(e)] + (if fwds == [] then [] else [e, Back(e)]), fwds + [e];
    forall j | 0 <= j < |fwds'|
      ensures edges'[4 * (n + j)] == fwds'[j] && edges'[4 * (n + j) + SNAP_BASE] == Back(fwds'[j])
      ensures j > 0 ==> edges'[4 * (n + j) - 2] == fwds'[j] && edges'[4 * (n + j) - 1] == Back(fwds'[j])
      ensures fwds'[j].key == 2 * firstEdge + (if j == 0 then 4 * n else 4 * (n + j) - 2)
    {
      if j < |fwds| {
        var f := fwds[j];
        assert fwds'[j] == f;
      }
    }
  }

  /** The four slots of a virtual node: the edge to it and the edge on from it, both with the way
      back, both pieces of the same edge, and both found by their keys. */
  ghost predicate NodeOk(edges: seq<VirtualEdge>, closest: seq<int>, firstNode: int, firstEdge: int, i: int)
    requires 0 <= i < |closest| && |edges| == 4 * |closest|
  {
    var a, b := edges[4 * i + BASE_SNAP], edges[4 * i + SNAP_ADJ];
    && a.adjNode == firstNode + i && b.baseNode == firstNode + i
    && edges[4 * i + SNAP_BASE] == Back(a) && edges[4 * i + ADJ_SNAP] == Back(b)
    && EdgeOfKey(a.originalKey) == closest[i] && EdgeOfKey(b.originalKey) == closest[i]
    && Found(edges, firstEdge, a) && Found(edges, firstEdge, b)
  }

  /** At the slots of a virtual node each edge is followed by one that leads back over its way. */
  lemma {:induction false} SlotsLeadBack(edges: seq<VirtualEdge>, closest: seq<int>, firstNode: int, firstEdge: int, i: nat)
    requires NodesOk(edges, closest, firstNode, firstEdge) && i < |closest|
    ensures LeadsBack(edges[4 * i + BASE_SNAP], edges[4 * i + SNAP_BASE]) && LeadsBack(edges[4 * i + SNAP_ADJ], edges[4 * i + ADJ_SNAP])
  {
    assert NodeOk(edges, closest, firstNode, firstEdge, i);
    BackLeadsBack(edges[4 * i + BASE_SNAP]);
    BackLeadsBack(edges[4 * i + SNAP_ADJ]);
  }

  /** An edge and its way back are found by their keys. */
  ghost predicate Found(edges: seq<VirtualEdge>, firstEdge: int, e: VirtualEdge) {
    var p := e.key - 2 * firstEdge;
    0 <= p && p + 1 < |edges| && p % 2 == 0 && edges[p] == e && edges[p + 1] == Back(e)
  }

  /** Every virtual edge, at any of its slots, is found by its key. */
  lemma {:induction false} KeyFindsEdge(edges: seq<VirtualEdge>, closest: seq<int>, firstNode: int, firstEdge: int, p: int)
    requires NodesOk(edges, closest, firstNode, firstEdge) && 0 <= p < |edges|
    ensures 0 <= edges[p].key - 2 * firstEdge < |edges| && edges[edges[p].key - 2 * firstEdge] == edges[p]
  {
    var i := p / 4;
    var o := p - 4 * i;
    assert 0 <= o < 4;
    assert NodeOk(edges, closest, firstNode, firstEdge, i);
  }

  ghost predicate NodesOk(edges: seq<VirtualEdge>, closest: seq<int>, firstNode: int, firstEdge: int) {
    && |edges| == 4 * |closest|
    && forall i :: 0 <= i < |closest| ==> NodeOk(edges, closest, firstNode, firstEdge, i)
  }

  /** A finished chain fills the slots of its nodes. */
  lemma {:induction false} ChainNodesOk(edges: seq<VirtualEdge>, closest: seq<int>, firstNode: int, firstEdge: int, edge: ClosestEdge,
                                        snaps: seq<Snap>, fwds: seq<VirtualEdge>, edges': seq<VirtualEdge>)
    requires NodesOk(edges, closest, firstNode, firstEdge) && IsChain(edge, firstNode + |closest|, snaps, fwds)
    requires |edges'| == 4 * (|closest| + |snaps|) && edges'[..|edges|] == edges
    requires ChainSlots(edges', |closest|, fwds, firstEdge)
    ensures NodesOk(edges', closest + Repeated(EdgeOfKey(edge.key), |snaps|), firstNode, firstEdge)
  {
    var closest', n := closest + Repeated(EdgeOfKey(edge.key), |snaps|), |closest|;
    forall i | 0 <= i < |closest'| ensures NodeOk(edges', closest', firstNode, firstEdge, i) {
      if i < n {
        assert NodeOk(edges, closest, firstNode, firstEdge, i);
        KeptSlots(edges, edges', i);
        KeptFound(edges, edges', firstEdge, edges[4 * i + BASE_SNAP]);
        KeptFound(edges, edges', firstEdge, edges[4 * i + SNAP_ADJ]);
      } else {
        var j := i - n;
        assert LinkOk(edge, firstNode + n, |snaps|, snaps, fwds, j) && LinkOk(edge, firstNode + n, |snaps|, snaps, fwds, j + 1);
        var a, b := fwds[j], fwds[j + 1];
      }
    }
  }

  function Repeated(x: int, n: nat): seq<int> {
    seq(n, _ => x)
  }

  lemma {:induction false} KeptSlots(edges: seq<VirtualEdge>, edges': seq<VirtualEdge>, i: nat)
    requires 4 * i + 3 < |edges| <= |edges'| && edges'[..|edges|] == edges
    ensures edges'[4 * i] == edges[4 * i] && edges'[4 * i + 1] == edges[4 * i + 1]
    ensures edges'[4 * i + 2] == edges[4 * i + 2] && edges'[4 * i + 3] == edges[4 * i + 3]
  {
    assert forall k :: 0 <= k < |edges| ==> edges'[..|edges|][k] == edges'[k];
  }

  lemma {:induction false} KeptFound(edges: seq<VirtualEdge>, edges': seq<VirtualEdge>, firstEdge: int, e: VirtualEdge)
    requires Found(edges, firstEdge, e) && |edges| <= |edges'| && edges'[..|edges|] == edges
    ensures Found(edges', firstEdge, e)
  {
    assert forall k :: 0 <= k < |edges| ==> edges'[..|edges|][k] == edges'[k];
  }

  /** All edges of a chain at the slots of its nodes. */
  ghost predicate ChainSlots(edges: seq<VirtualEdge>, n: nat, fwds: seq<VirtualEdge>, firstEdge: int) {
    && fwds != [] && |edges| == 4 * (n + |fwds| - 1)
    && forall j {:trigger fwds[j]} :: 0 <= j < |fwds| ==>
         && (j + 1 < |fwds| ==> edges[4 * (n + j)] == fwds[j] && edges[4 * (n + j) + SNAP_BASE] == Back(fwds[j]))
         && (j > 0 ==> edges[4 * (n + j) - 2] == fwds[j] && edges[4 * (n + j) - 1] == Back(fwds[j]))
         && fwds[j].key == 2 * firstEdge + (if j == 0 then 4 * n else 4 * (n + j) - 2)
  }

  lemma {:induction false} SlotsEnd(edges: seq<VirtualEdge>, n: nat, fwds: seq<VirtualEdge>, firstEdge: int, e: VirtualEdge)
    requires SlotsOk(edges, n, fwds, firstEdge) && fwds != [] && e.key == 2 * firstEdge + |edges|
    ensures ChainSlots(edges + [e, Back(e)], n, fwds + [e], firstEdge)
  {
    var edges', fwds' := edges + [e, Back(e)], fwds + [e];
    forall j | 0 <= j < |fwds'|
      ensures j + 1 < |fwds'| ==> edges'[4 * (n + j)] == fwds'[j] && edges'[4 * (n + j) + SNAP_BASE] == Back(fwds'[j])
      ensures j > 0 ==> edges'[4 * (n + j) - 2] == fwds'[j] && edges'[4 * (n + j) - 1] == Back(fwds'[j])
      ensures fwds'[j].key == 2 * firstEdge + (if j == 0 then 4 * n else 4 * (n + j) - 2)
    {
      if j < |fwds| {
        var f := fwds[j];
        assert fwds'[j] == f;
      }
    }
  }

  // ----- the overlay

  type Sameness = (Point, Point) -> bool

  /** The snaps of an edge in the order of their places; at one place a pillar comes first, or
      where the snap before it is. */
  ghost predicate SnapsOk(snaps: seq<Snap>, full: seq<Point>) {
    && (forall i {:trigger snaps[i]} :: 0 <= i < |snaps| ==> SnapOk(snaps[i], full))
    && forall i, j :: 0 <= i < j < |snaps| ==> InOrder(snaps[i], snaps[j])
  }

  ghost predicate InOrder(a: Snap, b: Snap) {
    && a.wayIndex <= b.wayIndex
    && (a.wayIndex == b.wayIndex && b.pillar ==> a.point == b.point)
  }

  /** The node for a snap: one of the chain, at the snapped point or at one taken to be the same. */
  ghost predicate AtNode(edge: ClosestEdge, firstNode: int, taken: seq<Snap>, same: Sameness, s: Snap, node: int, j: int)
    requires edge.points != []
  {
    && 0 <= j <= |taken| && node == (if j == 0 then edge.baseNode else firstNode + j - 1)
    && var p := ChainPoint(edge.points, taken, j);
       p == s.point || same(p, s.point)
  }

  /** The snaps that got a node of their own are among those passed. */
  ghost predicate TakenFrom(taken: seq<Snap>, snaps: seq<Snap>, i: nat) {
    i <= |snaps| && forall t {:trigger t in taken} :: t in taken ==> t in snaps[..i]
  }

  lemma {:induction false} TakenOne(taken: seq<Snap>, snaps: seq<Snap>, i: nat)
    requires TakenFrom(taken, snaps, i) && i < |snaps|
    ensures TakenFrom(taken, snaps, i + 1) && TakenFrom(taken + [snaps[i]], snaps, i + 1)
  {
    assert snaps[..i + 1] == snaps[..i] + [snaps[i]];
  }

  /** The node over which a chain has come after so many snaps were taken. */
  function NodeAfter(edge: ClosestEdge, firstNode: int, count: int): int {
    if count == 0 then edge.baseNode else firstNode + count - 1
  }

  /** Snap i shares the node before it exactly if it is taken to be where that is; otherwise it is
      the next one that gets a node of its own. */
  ghost predicate PassedOk(edge: ClosestEdge, firstNode: int, same: Sameness, snaps: seq<Snap>, taken: seq<Snap>, counts: seq<int>, nodes: seq<int>, i: int) {
    && edge.points != [] && 0 <= i < |snaps| && i + 1 < |counts| && i < |nodes|
    && counts[i + 1] == counts[i] + (if same(ChainPoint(edge.points, taken, counts[i]), snaps[i].point) then 0 else 1)
    && 0 <= counts[i] <= counts[i + 1] <= |taken| && (counts[i] < counts[i + 1] ==> taken[counts[i]] == snaps[i])
    && nodes[i] == NodeAfter(edge, firstNode, counts[i + 1])
  }

  /** The first snaps are passed one after the other; the counts say how many of them were taken. */
  ghost predicate Passed(edge: ClosestEdge, firstNode: int, same: Sameness, snaps: seq<Snap>, taken: seq<Snap>, counts: seq<int>, nodes: seq<int>) {
    && |counts| == |nodes| + 1 && |nodes| <= |snaps| && counts[0] == 0 && counts[|nodes|] == |taken|
    && forall i {:trigger PassedOk(edge, firstNode, same, snaps, taken, counts, nodes, i)} :: 0 <= i < |nodes| ==>
         PassedOk(edge, firstNode, same, snaps, taken, counts, nodes, i)
  }

  lemma {:induction false} PassedNext(edge: ClosestEdge, firstNode: int, same: Sameness, snaps: seq<Snap>, taken: seq<Snap>, counts: seq<int>, nodes: seq<int>)
    requires edge.points != [] && Passed(edge, firstNode, same, snaps, taken, counts, nodes) && |nodes| < |snaps|
    ensures var s, n := snaps[|nodes|], |taken|;
            if same(ChainPoint(edge.points, taken, n), s.point)
            then Passed(edge, firstNode, same, snaps, taken, counts + [n], nodes + [NodeAfter(edge, firstNode, n)])
            else Passed(edge, firstNode, same, snaps, taken + [s], counts + [n + 1], nodes + [NodeAfter(edge, firstNode, n + 1)])
  {
    var s, n := snaps[|nodes|], |taken|;
    var shares := same(ChainPoint(edge.points, taken, n), s.point);
    var taken', count := if shares then taken else taken + [s], if shares then n else n + 1;
    var counts', nodes' := counts + [count], nodes + [NodeAfter(edge, firstNode, count)];
    forall i | 0 <= i < |nodes'| ensures PassedOk(edge, firstNode, same, snaps, taken', counts', nodes', i) {
      if i < |nodes| {
        assert PassedOk(edge, firstNode, same, snaps, taken, counts, nodes, i);
        assert counts'[i] == counts[i] && counts'[i + 1] == counts[i + 1];
      } else {
        assert counts'[i] == n;
      }
    }
  }

  /** Every snap has a node of the chain, at its point or at one taken to be the same. */
  lemma {:induction false} HasPlace(edge: ClosestEdge, firstNode: int, same: Sameness, snaps: seq<Snap>, taken: seq<Snap>, counts: seq<int>, nodes: seq<int>, i: nat)
    requires edge.points != [] && Passed(edge, firstNode, same, snaps, taken, counts, nodes) && i < |nodes|
    ensures AtNode(edge, firstNode, taken, same, snaps[i], nodes[i], counts[i + 1])
  {
    assert PassedOk(edge, firstNode, same, snaps, taken, counts, nodes, i);
  }

  /** If no snap was taken, all of them are taken to be at the base node. */
  lemma {:induction false} NoneTaken(edge: ClosestEdge, firstNode: int, same: Sameness, snaps: seq<Snap>, counts: seq<int>, nodes: seq<int>, i: nat)
    requires edge.points != [] && Passed(edge, firstNode, same, snaps, [], counts, nodes) && i < |nodes|
    ensures same(edge.points[0], snaps[i].point) && nodes[i] == edge.baseNode
  {
    assert PassedOk(edge, firstNode, same, snaps, [], counts, nodes, i);
  }

  /** A snap that is not taken to be where the one before is lies behind it. */
  lemma {:induction false} LiesBehind(full: seq<Point>, snaps: seq<Snap>, taken: seq<Snap>, i: nat, same: Sameness)
    requires SnapsOk(snaps, full) && TakenFrom(taken, snaps, i) && i < |snaps| && forall p :: same(p, p)
    requires taken != [] && !same(taken[|taken| - 1].point, snaps[i].point)
    ensures taken[|taken| - 1].wayIndex <= snaps[i].wayIndex && (snaps[i].pillar ==> taken[|taken| - 1].wayIndex < snaps[i].wayIndex)
  {
    var last := taken[|taken| - 1];
    assert last in taken;
    var k :| 0 <= k < i && snaps[k] == last;
    assert InOrder(snaps[k], snaps[i]);
  }

  /** The slots of an edge to a new node: its own, and those of the node before if there is one. */
  function Pairs(e: VirtualEdge, twice: bool): seq<VirtualEdge> {
    [e, Back(e)] + (if twice then [e, Back(e)] else [])
  }

  /** An edge is being split from virtual node n on. */
  ghost predicate SplittingOn(edge: ClosestEdge, firstNode: int, firstEdge: int, n: nat, at: Progress, taken: seq<Snap>, fwds: seq<VirtualEdge>,
                              closest0: seq<int>, edges0: seq<VirtualEdge>, closest: seq<int>, edges: seq<VirtualEdge>, points: seq<Point>)
  {
    && Growing(edge, firstNode + n, taken, fwds, at) && SlotsOk(edges, n, fwds, firstEdge) && edges0 <= edges
    && NodesStored(EdgeOfKey(edge.key), n, taken, closest0, closest, points)
  }

  ghost predicate Growing(edge: ClosestEdge, firstNode: int, taken: seq<Snap>, fwds: seq<VirtualEdge>, at: Progress) {
    ChainGrows(edge, firstNode, taken, fwds, at.prevWayIndex, at.prevPoint, at.prevNode) && (at.addedEdges <==> taken != [])
  }

  /** The taken snaps have their places among the virtual nodes. */
  ghost predicate NodesStored(id: int, n: nat, taken: seq<Snap>, closest0: seq<int>, closest: seq<int>, points: seq<Point>) {
    |closest0| == n && closest == closest0 + Repeated(id, |taken|) && |points| == |closest| && points[n..] == Points(taken)
  }

  lemma {:induction false} OneMoreStored(id: int, n: nat, taken: seq<Snap>, closest0: seq<int>, closest: seq<int>, points: seq<Point>, s: Snap)
    requires NodesStored(id, n, taken, closest0, closest, points)
    ensures NodesStored(id, n, taken + [s], closest0, closest + [id], points + [s.point])
  {
    assert Repeated(id, |taken|) + [id] == Repeated(id, |taken + [s]|);
    assert Points(taken) + [s.point] == Points(taken + [s]);
    assert (points + [s.point])[n..] == points[n..] + [s.point];
  }

  lemma {:induction false} OneMoreSlot(edges0: seq<VirtualEdge>, edges: seq<VirtualEdge>, n: nat, fwds: seq<VirtualEdge>, firstEdge: int, e: VirtualEdge)
    requires edges0 <= edges && SlotsOk(edges, n, fwds, firstEdge) && e.key == 2 * firstEdge + |edges|
    ensures edges0 <= edges + Pairs(e, fwds != []) && SlotsOk(edges + Pairs(e, fwds != []), n, fwds + [e], firstEdge)
  {
    SlotsStep(edges, n, fwds, firstEdge, e);
    assert edges + [e, Back(e)] + (if fwds == [] then [] else [e, Back(e)]) == edges + Pairs(e, fwds != []);
  }

  /** Giving a snap a node of its own takes the split on. */
  lemma {:induction false} SplittingNext(edge: ClosestEdge, firstNode: int, firstEdge: int, n: nat, at: Progress, taken: seq<Snap>, fwds: seq<VirtualEdge>,
                                         closest0: seq<int>, edges0: seq<VirtualEdge>, closest: seq<int>, edges: seq<VirtualEdge>, points: seq<Point>,
                                         s: Snap, node: int, e: VirtualEdge)
    requires SplittingOn(edge, firstNode, firstEdge, n, at, taken, fwds, closest0, edges0, closest, edges, points) && SnapOk(s, edge.points)
    requires at.prevWayIndex <= s.wayIndex + 1 && (s.pillar ==> at.prevWayIndex <= s.wayIndex) && node == firstNode + |points|
    requires e.key == 2 * firstEdge + |edges| && e.originalKey == edge.key && e.baseNode == at.prevNode && e.adjNode == node
    requires e.points == Piece(at.prevPoint, at.prevWayIndex, s.pillar, s.point, s.wayIndex, edge.points)
    ensures SplittingOn(edge, firstNode, firstEdge, n, Progress(s.point, s.wayIndex + 1, node, true), taken + [s], fwds + [e], closest0, edges0,
                        closest + [EdgeOfKey(edge.key)], edges + Pairs(e, at.addedEdges), points + [s.point])
  {
    var next, more := Progress(s.point, s.wayIndex + 1, node, true), edges + Pairs(e, at.addedEdges);
    assert Growing(edge, firstNode + n, taken + [s], fwds + [e], next) by {
      ChainStep(edge, firstNode + n, taken, fwds, at.prevWayIndex, at.prevPoint, at.prevNode, s, e);
    }
    assert edges0 <= more && SlotsOk(more, n, fwds + [e], firstEdge) by {
      OneMoreSlot(edges0, edges, n, fwds, firstEdge, e);
    }
    OneMoreStored(EdgeOfKey(edge.key), n, taken, closest0, closest, points, s);
  }

  function Points(snaps: seq<Snap>): seq<Point> {
    seq(|snaps|, i requires 0 <= i < |snaps| => snaps[i].point)
  }

  /** How far the chain has come. */
  datatype Progress = Progress(prevPoint: Point, prevWayIndex: int, prevNode: int, addedEdges: bool)

  class QueryOverlay {
    const firstNode: nat
    const firstEdge: nat
    var closestEdges: seq<int>
    var virtualEdges: seq<VirtualEdge>
    var virtualNodes: seq<Point>

    ghost predicate Valid()
      reads this
    {
      |virtualNodes| == |closestEdges| && NodesOk(virtualEdges, closestEdges, firstNode, firstEdge)
    }

    constructor (firstNode: nat, firstEdge: nat)
      ensures Valid() && closestEdges == [] && this.firstNode == firstNode && this.firstEdge == firstEdge
    {
      this.firstNode, this.firstEdge, closestEdges, virtualEdges, virtualNodes := firstNode, firstEdge, [], [], [];
    }

    /** Adds an edge over a piece of the way, and its way back. */
    method CreateEdges(edge: ClosestEdge, prevPoint: Point, prevWayIndex: int, pillar: bool, point: Point, wayIndex: int, prevNode: int, node: int,
                       ghost pairs: int)
      returns (e: VirtualEdge)
      requires 0 <= prevWayIndex <= wayIndex + 1 <= |edge.points| && |virtualEdges| == 2 * pairs
      modifies this`virtualEdges
      ensures virtualEdges == old(virtualEdges) + [e, Back(e)] && LeadsBack(e, Back(e))
      ensures e == VirtualEdge(edge.key, 2 * firstEdge + |old(virtualEdges)|, prevNode, node,
                               Piece(prevPoint, prevWayIndex, pillar, point, wayIndex, edge.points))
    {
      var basePoints := [prevPoint];
      for i := prevWayIndex to wayIndex + 1
        invariant basePoints == [prevPoint] + edge.points[prevWayIndex..i]
      {
        basePoints := basePoints + [edge.points[i]];
      }
      if !pillar {
        basePoints := basePoints + [point];
      }
      var virtEdgeID := firstEdge + |virtualEdges| / 2;
      e := VirtualEdge(edge.key, 2 * virtEdgeID, prevNode, node, basePoints);
      virtualEdges := virtualEdges + [e] + [VirtualEdge(ReverseKey(edge.key), 2 * virtEdgeID + 1, node, prevNode, Reversed(basePoints))];
    }

    /** The edge to a node is also the edge on from the one before. */
    method RepeatLastPair()
      requires |virtualEdges| >= 2
      modifies this`virtualEdges
      ensures virtualEdges == old(virtualEdges) + [old(virtualEdges[|virtualEdges| - 2]), old(virtualEdges[|virtualEdges| - 1])]
    {
      virtualEdges := virtualEdges + [virtualEdges[|virtualEdges| - 2]] + [virtualEdges[|virtualEdges| - 1]];
    }

    /** Gives a snap a node of its own, with an edge that leads to it. */
    method AddNode(edge: ClosestEdge, s: Snap, at: Progress, ghost pairs: int) returns (node: int, e: VirtualEdge)
      requires 0 <= at.prevWayIndex <= s.wayIndex + 1 <= |edge.points| && |virtualEdges| == 2 * pairs
      modifies this
      ensures node == firstNode + |old(virtualNodes)| && closestEdges == old(closestEdges) + [EdgeOfKey(edge.key)]
      ensures virtualNodes == old(virtualNodes) + [s.point]
      ensures virtualEdges == old(virtualEdges) + Pairs(e, at.addedEdges)
      ensures e == VirtualEdge(edge.key, 2 * firstEdge + |old(virtualEdges)|, at.prevNode, node,
                               Piece(at.prevPoint, at.prevWayIndex, s.pillar, s.point, s.wayIndex, edge.points))
    {
      node := firstNode + |virtualNodes|;
      closestEdges := closestEdges + [EdgeOfKey(edge.key)];
      e := CreateEdges(edge, at.prevPoint, at.prevWayIndex, s.pillar, s.point, s.wayIndex, at.prevNode, node, pairs);
      virtualNodes := virtualNodes + [s.point];
      if at.addedEdges {
        RepeatLastPair();
      }
    }

    /** An edge is being split from virtual node n on. */
    ghost predicate Splitting(edge: ClosestEdge, n: nat, at: Progress, taken: seq<Snap>, fwds: seq<VirtualEdge>, closest0: seq<int>, edges0: seq<VirtualEdge>)
      reads this
    {
      SplittingOn(edge, firstNode, firstEdge, n, at, taken, fwds, closest0, edges0, closestEdges, virtualEdges, virtualNodes)
    }

    /** Passes a snap: it shares the node before it if it is taken to be there. */
    method PassSnap(edge: ClosestEdge, snaps: seq<Snap>, i: nat, same: Sameness, at: Progress, ghost n: nat, ghost taken: seq<Snap>,
                    ghost fwds: seq<VirtualEdge>, ghost closest0: seq<int>, ghost edges0: seq<VirtualEdge>)
      returns (at': Progress, ghost taken': seq<Snap>, ghost fwds': seq<VirtualEdge>)
      requires |edge.points| >= 2 && SnapsOk(snaps, edge.points) && (forall p :: same(p, p)) && i < |snaps|
      requires Splitting(edge, n, at, taken, fwds, closest0, edges0) && TakenFrom(taken, snaps, i)
      modifies this
      ensures Splitting(edge, n, at', taken', fwds', closest0, edges0)
      ensures taken' == (if same(ChainPoint(edge.points, taken, |taken|), snaps[i].point) then taken else taken + [snaps[i]])
      ensures at'.prevNode == NodeAfter(edge, firstNode + n, |taken'|)
      ensures exists more :: virtualNodes == old(virtualNodes) + more
    {
      var s := snaps[i];
      at', taken', fwds' := at, taken, fwds;
      if same(at.prevPoint, s.point) {
        assert virtualNodes == virtualNodes + [];
      } else {
        if at.addedEdges {
          LiesBehind(edge.points, snaps, taken, i, same);
        }
        ghost var closest, edges, points := closestEdges, virtualEdges, virtualNodes;
        var node, e := AddNode(edge, s, at, if fwds == [] then 2 * n else 2 * (n + |fwds|) - 1);
        at', taken', fwds' := Progress(s.point, s.wayIndex + 1, node, true), taken + [s], fwds + [e];
        SplittingNext(edge, firstNode, firstEdge, n, at, taken, fwds, closest0, edges0, closest, edges, points, s, node, e);
      }
    }

    /** Leads the chain on to the end of the edge. */
    method EndChain(edge: ClosestEdge, at: Progress, ghost n: nat, ghost taken: seq<Snap>, ghost fwds: seq<VirtualEdge>,
                    ghost closest0: seq<int>, ghost edges0: seq<VirtualEdge>)
      returns (ghost fwds': seq<VirtualEdge>)
      requires |edge.points| >= 2 && Splitting(edge, n, at, taken, fwds, closest0, edges0) && taken != []
      requires NodesOk(edges0, closest0, firstNode, firstEdge)
      modifies this`virtualEdges
      ensures Valid() && IsChain(edge, firstNode + n, taken, fwds') && ChainSlots(virtualEdges, n, fwds', firstEdge)
      ensures edges0 <= virtualEdges
    {
      ghost var before := virtualEdges;
      var e := CreateEdges(edge, at.prevPoint, at.prevWayIndex, false, edge.points[|edge.points| - 1], |edge.points| - 2, at.prevNode, edge.adjNode,
                           2 * (n + |fwds|) - 1);
      SlotsEnd(before, n, fwds, firstEdge, e);
      ChainEnds(edge, firstNode + n, taken, fwds, at.prevWayIndex, at.prevPoint, at.prevNode, e);
      fwds' := fwds + [e];
      ChainNodesOk(edges0, closest0, firstNode, firstEdge, edge, taken, fwds', virtualEdges);
    }

    /** Splits an edge at its snaps. A snap taken to be where the one before is shares its node;
        every other one gets a node of its own, and a chain over these takes the place of the edge. */
    method SplitEdge(edge: ClosestEdge, snaps: seq<Snap>, same: Sameness)
      returns (nodes: seq<int>, ghost taken: seq<Snap>, ghost fwds: seq<VirtualEdge>, ghost counts: seq<int>)
      requires Valid() && |edge.points| >= 2 && SnapsOk(snaps, edge.points) && forall p :: same(p, p)
      modifies this
      ensures Valid() && |nodes| == |snaps| && TakenFrom(taken, snaps, |snaps|)
      ensures Passed(edge, firstNode + |old(closestEdges)|, same, snaps, taken, counts, nodes)
      ensures virtualNodes == old(virtualNodes) + Points(taken)
      ensures closestEdges == old(closestEdges) + Repeated(EdgeOfKey(edge.key), |taken|)
      ensures |virtualEdges| >= |old(virtualEdges)| && virtualEdges[..|old(virtualEdges)|] == old(virtualEdges)
      ensures taken != [] ==>
                && IsChain(edge, firstNode + |old(closestEdges)|, taken, fwds)
                && ChainSlots(virtualEdges, |old(closestEdges)|, fwds, firstEdge)
    {
      ghost var n, closest0, edges0 := |closestEdges|, closestEdges, virtualEdges;
      var at := Progress(edge.points[0], 1, edge.baseNode, false);
      ghost var points0 := virtualNodes;
      nodes, taken, fwds, counts := [], [], [], [0];
      for i := 0 to |snaps|
        invariant |nodes| == i && TakenFrom(taken, snaps, i)
        invariant Splitting(edge, n, at, taken, fwds, closest0, edges0) && Passed(edge, firstNode + n, same, snaps, taken, counts, nodes)
        invariant points0 <= virtualNodes
      {
        PassedNext(edge, firstNode + n, same, snaps, taken, counts, nodes);
        TakenOne(taken, snaps, i);
        at, taken, fwds := PassSnap(edge, snaps, i, same, at, n, taken, fwds, closest0, edges0);
        nodes, counts := nodes + [at.prevNode], counts + [|taken|];
      }
      assert virtualNodes == points0 + Points(taken);
      if at.addedEdges {
        fwds := EndChain(edge, at, n, taken, fwds, closest0, edges0);
      } else {
        assert virtualEdges == edges0 && closestEdges == closest0;
      }
    }
  }

  // ----- several edges

  /** An edge that was split, the virtual node its chain begins with, and the chain. */
  datatype SplitInfo = SplitInfo(edge: ClosestEdge, n: nat, taken: seq<Snap>, fwds: seq<VirtualEdge>) {
    function End(): nat {
      n + |taken|
    }
  }

  ghost predicate ChainOk(edges: seq<VirtualEdge>, firstNode: int, firstEdge: int, c: SplitInfo) {
    && 4 * c.End() <= |edges| && IsChain(c.edge, firstNode + c.n, c.taken, c.fwds)
    && ChainSlots(edges[..4 * c.End()], c.n, c.fwds, firstEdge)
  }

  ghost predicate InChain(chains: seq<SplitInfo>, i: int) {
    exists c :: c in chains && c.n <= i < c.End()
  }

  /** Every virtual node belongs to the chain of a split edge. */
  ghost predicate ChainsOk(edges: seq<VirtualEdge>, count: nat, firstNode: int, firstEdge: int, chains: seq<SplitInfo>) {
    && |edges| == 4 * count
    && (forall c {:trigger ChainOk(edges, firstNode, firstEdge, c)} :: c in chains ==> ChainOk(edges, firstNode, firstEdge, c))
    && forall i :: 0 <= i < count ==> InChain(chains, i)
  }

  lemma {:induction false} ChainsGrow(edges: seq<VirtualEdge>, count: nat, firstNode: int, firstEdge: int, chains: seq<SplitInfo>,
                                      edges': seq<VirtualEdge>, c: SplitInfo)
    requires ChainsOk(edges, count, firstNode, firstEdge, chains) && |edges'| >= |edges| && edges'[..|edges|] == edges
    requires c.n == count && |edges'| == 4 * c.End() && IsChain(c.edge, firstNode + c.n, c.taken, c.fwds)
    requires ChainSlots(edges', c.n, c.fwds, firstEdge)
    ensures ChainsOk(edges', c.End(), firstNode, firstEdge, chains + [c])
  {
    forall d | d in chains + [c] ensures ChainOk(edges', firstNode, firstEdge, d) {
      if d in chains {
        assert ChainOk(edges, firstNode, firstEdge, d);
        assert edges'[..4 * d.End()] == edges'[..|edges|][..4 * d.End()];
      } else {
        assert edges'[..4 * c.End()] == edges';
      }
    }
    forall i | 0 <= i < c.End() ensures InChain(chains + [c], i) {
      if i < count {
        assert InChain(chains, i);
        var d :| d in chains && d.n <= i < d.End();
        assert d in chains + [c];
      } else {
        assert c in chains + [c];
      }
    }
  }

  /** The edge was split at its snaps: they are passed one after the other, the taken ones are its
      virtual nodes, and if there are any, a chain over them takes the place of the edge. */
  ghost predicate IsSplit(firstNode: int, edge: ClosestEdge, snaps: seq<Snap>, same: Sameness, nodes: seq<int>, c: SplitInfo) {
    && c.edge == edge && |nodes| == |snaps|
    && exists counts {:trigger Passed(edge, firstNode + c.n, same, snaps, c.taken, counts, nodes)} ::
         Passed(edge, firstNode + c.n, same, snaps, c.taken, counts, nodes)
  }

  /** The virtual nodes are those of the splits, one split after the other. */
  ghost predicate SplitsOk(points: seq<Point>, splits: seq<SplitInfo>) {
    && (if splits == [] then points == [] else |points| == splits[|splits| - 1].End())
    && forall k {:trigger SplitAt(points, splits, k)} :: 0 <= k < |splits| ==> SplitAt(points, splits, k)
  }

  ghost predicate SplitAt(points: seq<Point>, splits: seq<SplitInfo>, k: int) {
    && 0 <= k < |splits| && splits[k].n == (if k == 0 then 0 else splits[k - 1].End()) && splits[k].End() <= |points|
    && points[splits[k].n..splits[k].End()] == Points(splits[k].taken)
  }

  lemma {:induction false} SplitsGrow(points: seq<Point>, splits: seq<SplitInfo>, points': seq<Point>, c: SplitInfo)
    requires SplitsOk(points, splits) && c.n == |points| && points' == points + Points(c.taken)
    ensures SplitsOk(points', splits + [c])
  {
    var splits' := splits + [c];
    forall k | 0 <= k < |splits'| ensures SplitAt(points', splits', k) {
      if k < |splits| {
        assert SplitAt(points, splits, k) && splits'[k] == splits[k];
        assert points'[splits[k].n..splits[k].End()] == points[splits[k].n..splits[k].End()];
      } else {
        assert points'[c.n..c.End()] == Points(c.taken);
      }
    }
  }

  /** The chains are the splits at which a snap was taken. */
  ghost predicate AreChains(chains: seq<SplitInfo>, splits: seq<SplitInfo>) {
    forall c {:trigger c in chains} {:trigger c in splits} :: c in chains <==> c in splits && c.taken != []
  }

  /** Splits several edges, each at its snaps: every snap gets the node of its place, and an edge
      with a snap that is not taken to be at its base node gets a chain. */
  method BuildVirtualEdges(overlay: QueryOverlay, edges: seq<ClosestEdge>, snaps: seq<seq<Snap>>, same: Sameness)
    returns (nodes: seq<seq<int>>, ghost chains: seq<SplitInfo>, ghost splits: seq<SplitInfo>)
    requires overlay.Valid() && overlay.closestEdges == [] && |edges| == |snaps| && forall p :: same(p, p)
    requires forall k {:trigger edges[k]} :: 0 <= k < |edges| ==> |edges[k].points| >= 2 && SnapsOk(snaps[k], edges[k].points)
    modifies overlay
    ensures overlay.Valid() && |nodes| == |edges| == |splits|
    ensures ChainsOk(overlay.virtualEdges, |overlay.closestEdges|, overlay.firstNode, overlay.firstEdge, chains)
    ensures SplitsOk(overlay.virtualNodes, splits) && AreChains(chains, splits)
    ensures forall k {:trigger splits[k]} :: 0 <= k < |edges| ==> IsSplit(overlay.firstNode, edges[k], snaps[k], same, nodes[k], splits[k])
    ensures forall k, i {:trigger snaps[k][i]} :: 0 <= k < |edges| && 0 <= i < |snaps[k]| ==>
              same(edges[k].points[0], snaps[k][i].point) || exists c :: c in chains && c.edge == edges[k]
  {
    nodes, chains, splits := [], [], [];
    for k := 0 to |edges|
      invariant overlay.Valid() && |nodes| == |splits| == k
      invariant ChainsOk(overlay.virtualEdges, |overlay.closestEdges|, overlay.firstNode, overlay.firstEdge, chains)
      invariant SplitsOk(overlay.virtualNodes, splits) && AreChains(chains, splits)
      invariant forall j {:trigger splits[j]} :: 0 <= j < k ==> IsSplit(overlay.firstNode, edges[j], snaps[j], same, nodes[j], splits[j])
    {
      var placed;
      ghost var c;
      placed, chains, c := SplitNext(overlay, edges[k], snaps[k], same, chains, splits);
      nodes, splits := nodes + [placed], splits + [c];
    }
    forall k, i | 0 <= k < |edges| && 0 <= i < |snaps[k]|
      ensures same(edges[k].points[0], snaps[k][i].point) || exists c :: c in chains && c.edge == edges[k]
    {
      SplitOrAtBase(overlay.firstNode, edges[k], snaps[k], same, nodes[k], splits[k], i);
      assert splits[k] in splits;
    }
  }

  lemma {:induction false} SplitOrAtBase(firstNode: int, edge: ClosestEdge, snaps: seq<Snap>, same: Sameness, nodes: seq<int>, c: SplitInfo, i: nat)
    requires edge.points != [] && IsSplit(firstNode, edge, snaps, same, nodes, c) && i < |snaps|
    ensures same(edge.points[0], snaps[i].point) || c.taken != []
  {
    var counts :| Passed(edge, firstNode + c.n, same, snaps, c.taken, counts, nodes);
    if c.taken == [] {
      NoneTaken(edge, firstNode + c.n, same, snaps, counts, nodes, i);
    }
  }

  method SplitNext(overlay: QueryOverlay, edge: ClosestEdge, snaps: seq<Snap>, same: Sameness, ghost chains: seq<SplitInfo>, ghost splits: seq<SplitInfo>)
    returns (placed: seq<int>, ghost chains': seq<SplitInfo>, ghost c: SplitInfo)
    requires overlay.Valid() && |edge.points| >= 2 && SnapsOk(snaps, edge.points) && forall p :: same(p, p)
    requires ChainsOk(overlay.virtualEdges, |overlay.closestEdges|, overlay.firstNode, overlay.firstEdge, chains)
    requires SplitsOk(overlay.virtualNodes, splits) && AreChains(chains, splits)
    modifies overlay
    ensures overlay.Valid() && ChainsOk(overlay.virtualEdges, |overlay.closestEdges|, overlay.firstNode, overlay.firstEdge, chains')
    ensures SplitsOk(overlay.virtualNodes, splits + [c]) && AreChains(chains', splits + [c])
    ensures IsSplit(overlay.firstNode, edge, snaps, same, placed, c)
  {
    ghost var n, before, points := |overlay.closestEdges|, overlay.virtualEdges, overlay.virtualNodes;
    ghost var taken, fwds, counts;
    placed, taken, fwds, counts := overlay.SplitEdge(edge, snaps, same);
    c := SplitInfo(edge, n, taken, fwds);
    SplitsGrow(points, splits, overlay.virtualNodes, c);
    assert Passed(edge, overlay.firstNode + c.n, same, snaps, c.taken, counts, placed);
    if taken != [] {
      ChainsGrow(before, n, overlay.firstNode, overlay.firstEdge, chains, overlay.virtualEdges, c);
      chains' := chains + [c];
    } else {
      chains' := chains;
      assert overlay.virtualEdges == before;
    }
  }

  // ----- the changes at real nodes

  ghost predicate LeavesAt(edges: seq<VirtualEdge>, node: int, e: VirtualEdge) {
    e in edges && e.baseNode == node
  }

  /** The virtual edges that leave a node, in order. */
  ghost function Leaving(edges: seq<VirtualEdge>, node: int): (r: seq<VirtualEdge>)
    ensures forall e :: e in r <==> LeavesAt(edges, node, e)
  {
    if edges == [] then [] else
      Leaving(edges[..|edges| - 1], node) + if edges[|edges| - 1].baseNode == node then [edges[|edges| - 1]] else []
  }

  lemma LeavingNext(edges: seq<VirtualEdge>, e: VirtualEdge, node: int)
    ensures Leaving(edges + [e], node) == Leaving(edges, node) + if e.baseNode == node then [e] else []
  {
    assert (edges + [e])[..|edges|] == edges;
  }

  /** A virtual edge that leaves a real node is a piece of a split edge that ends there, and
      every split edge has such a piece at both of its ends. */
  lemma {:induction false} PiecesAtNode(edges: seq<VirtualEdge>, closest: seq<int>, firstNode: int, firstEdge: int, chains: seq<SplitInfo>, node: int, id: int)
    requires NodesOk(edges, closest, firstNode, firstEdge) && ChainsOk(edges, |closest|, firstNode, firstEdge, chains) && node < firstNode
    ensures (exists e :: LeavesAt(edges, node, e) && EdgeOfKey(e.originalKey) == id)
       <==> (exists c :: c in chains && EdgeOfKey(c.edge.key) == id && (c.edge.baseNode == node || c.edge.adjNode == node))
  {
    if e :| LeavesAt(edges, node, e) && EdgeOfKey(e.originalKey) == id {
      var p :| 0 <= p < |edges| && edges[p] == e;
      var c := ChainOfPiece(edges, closest, firstNode, firstEdge, chains, p);
    }
    if c :| c in chains && EdgeOfKey(c.edge.key) == id && (c.edge.baseNode == node || c.edge.adjNode == node) {
      assert ChainOk(edges, firstNode, firstEdge, c);
      var p, q := PiecesOfChain(edges, firstNode, firstEdge, c);
      assert edges[p] in edges && edges[q] in edges;
      assert c.edge.baseNode == node ==> LeavesAt(edges, node, edges[p]);
      assert c.edge.adjNode == node ==> LeavesAt(edges, node, edges[q]);
    }
  }

  lemma {:induction false} SameEdge(key: int)
    ensures EdgeOfKey(ReverseKey(key)) == EdgeOfKey(key)
  {
  }

  lemma {:induction false} ChainOfPiece(edges: seq<VirtualEdge>, closest: seq<int>, firstNode: int, firstEdge: int, chains: seq<SplitInfo>, p: int)
    returns (c: SplitInfo)
    requires NodesOk(edges, closest, firstNode, firstEdge) && ChainsOk(edges, |closest|, firstNode, firstEdge, chains)
    requires 0 <= p < |edges| && edges[p].baseNode < firstNode
    ensures c in chains && EdgeOfKey(c.edge.key) == EdgeOfKey(edges[p].originalKey)
    ensures c.edge.baseNode == edges[p].baseNode || c.edge.adjNode == edges[p].baseNode
  {
    var i := OutwardSlot(edges, closest, firstNode, firstEdge, p);
    assert InChain(chains, i);
    c :| c in chains && c.n <= i < c.End();
    assert ChainOk(edges, firstNode, firstEdge, c);
    EndsOfChain(edges, firstNode, firstEdge, c, i - c.n);
  }

  /** Of the pieces at a virtual node of a chain, only the first edge and the way back of the
      last one leave real nodes. */
  lemma {:induction false} EndsOfChain(edges: seq<VirtualEdge>, firstNode: int, firstEdge: int, c: SplitInfo, j: int)
    requires ChainOk(edges, firstNode, firstEdge, c) && 0 <= j < |c.taken|
    ensures var i := c.n + j;
            var a, b := edges[4 * i + BASE_SNAP], edges[4 * i + ADJ_SNAP];
            && EdgeOfKey(a.originalKey) == EdgeOfKey(c.edge.key) && EdgeOfKey(b.originalKey) == EdgeOfKey(c.edge.key)
            && (a.baseNode < firstNode ==> a.baseNode == c.edge.baseNode) && (b.baseNode < firstNode ==> b.baseNode == c.edge.adjNode)
  {
    var m := |c.taken|;
    SlotsOfChain(edges, firstEdge, c, j);
    assert LinkOk(c.edge, firstNode + c.n, m, c.taken, c.fwds, j) && LinkOk(c.edge, firstNode + c.n, m, c.taken, c.fwds, j + 1);
    SameEdge(c.edge.key);
  }

  /** A virtual edge that leaves a real node leads to a virtual node, and has one of its outer slots. */
  lemma {:induction false} OutwardSlot(edges: seq<VirtualEdge>, closest: seq<int>, firstNode: int, firstEdge: int, p: int) returns (i: nat)
    requires NodesOk(edges, closest, firstNode, firstEdge) && 0 <= p < |edges| && edges[p].baseNode < firstNode
    ensures i < |closest| && (p == 4 * i + BASE_SNAP || p == 4 * i + ADJ_SNAP)
  {
    i := p / 4;
    var o := p - 4 * i;
    assert 0 <= o < 4;
    assert NodeOk(edges, closest, firstNode, firstEdge, i);
  }

  lemma {:induction false} SlotsOfChain(edges: seq<VirtualEdge>, firstEdge: int, c: SplitInfo, j: int)
    requires 4 * c.End() <= |edges| && |c.fwds| == |c.taken| + 1 && ChainSlots(edges[..4 * c.End()], c.n, c.fwds, firstEdge) && 0 <= j < |c.taken|
    ensures var i := c.n + j;
            && edges[4 * i] == c.fwds[j] && edges[4 * i + SNAP_BASE] == Back(c.fwds[j])
            && edges[4 * i + SNAP_ADJ] == c.fwds[j + 1] && edges[4 * i + ADJ_SNAP] == Back(c.fwds[j + 1])
  {
    var part := edges[..4 * c.End()];
    assert forall k :: 0 <= k < |part| ==> part[k] == edges[k];
    var f, g := c.fwds[j], c.fwds[j + 1];
  }

  /** The first edge of a chain leaves its base node, and the way back of the last one its other end. */
  lemma {:induction false} PiecesOfChain(edges: seq<VirtualEdge>, firstNode: int, firstEdge: int, c: SplitInfo) returns (p: int, q: int)
    requires ChainOk(edges, firstNode, firstEdge, c)
    ensures 0 <= p < |edges| && edges[p].baseNode == c.edge.baseNode && EdgeOfKey(edges[p].originalKey) == EdgeOfKey(c.edge.key)
    ensures 0 <= q < |edges| && edges[q].baseNode == c.edge.adjNode && EdgeOfKey(edges[q].originalKey) == EdgeOfKey(c.edge.key)
  {
    var m := |c.taken|;
    p, q := 4 * c.n, 4 * (c.n + m - 1) + ADJ_SNAP;
    SlotsOfChain(edges, firstEdge, c, 0);
    SlotsOfChain(edges, firstEdge, c, m - 1);
    assert LinkOk(c.edge, firstNode + c.n, m, c.taken, c.fwds, 0) && LinkOk(c.edge, firstNode + c.n, m, c.taken, c.fwds, m);
    SameEdge(c.edge.key);
  }

  datatype EdgeChanges = EdgeChanges(additional: seq<VirtualEdge>, removed: seq<int>)

  type Changes = map<int, EdgeChanges>

  /** What changes at real nodes because of the first virtual nodes: the virtual edges that leave
      them are added. */
  ghost predicate AddedUpTo(edges: seq<VirtualEdge>, firstNode: int, k: nat, changes: Changes) {
    && 4 * k <= |edges|
    && (forall t :: t in changes ==> t < firstNode && changes[t].removed == [] && changes[t].additional != [])
    && forall t {:trigger Added(changes, t)} :: t < firstNode ==> Added(changes, t) == Leaving(edges[..4 * k], t)
  }

  ghost function Added(changes: Changes, t: int): seq<VirtualEdge> {
    if t in changes then changes[t].additional else []
  }

  function WithAdded(changes: Changes, t: int, e: VirtualEdge): Changes {
    changes[t := if t in changes then changes[t].(additional := changes[t].additional + [e]) else EdgeChanges([e], [])]
  }

  lemma {:induction false} AddedOne(changes: Changes, t: int, e: VirtualEdge)
    ensures forall u {:trigger Added(WithAdded(changes, t, e), u)} ::
              Added(WithAdded(changes, t, e), u) == Added(changes, u) + if u == t then [e] else []
  {
  }

  /** Of the four slots of a virtual node, the edge to it may leave a real node, and so may the
      way back of the edge on from it. */
  lemma {:induction false} FourMore(edges: seq<VirtualEdge>, closest: seq<int>, firstNode: int, firstEdge: int, i: nat, t: int)
    requires NodesOk(edges, closest, firstNode, firstEdge) && i < |closest| && t < firstNode
    ensures Leaving(edges[..4 * (i + 1)], t)
         == Leaving(edges[..4 * i], t)
          + (if edges[4 * i + SNAP_BASE].adjNode == t then [edges[4 * i + BASE_SNAP]] else [])
          + (if edges[4 * i + SNAP_ADJ].adjNode == t then [edges[4 * i + ADJ_SNAP]] else [])
  {
    assert NodeOk(edges, closest, firstNode, firstEdge, i);
    var before := edges[..4 * i];
    var a, b, c, d := edges[4 * i], edges[4 * i + 1], edges[4 * i + 2], edges[4 * i + 3];
    LeavingNext(before, a, t);
    LeavingNext(before + [a], b, t);
    LeavingNext(before + [a] + [b], c, t);
    LeavingNext(before + [a] + [b] + [c], d, t);
    assert edges[..4 * (i + 1)] == before + [a] + [b] + [c] + [d];
  }

  /** Collects the virtual edges that leave real nodes, and the edges they take the place of. */
  method BuildEdgeChanges(edges: seq<VirtualEdge>, closest: seq<int>, firstNode: int, ghost firstEdge: int) returns (changes: Changes)
    requires NodesOk(edges, closest, firstNode, firstEdge)
    ensures forall t {:trigger Added(changes, t)} :: t < firstNode ==> Added(changes, t) == Leaving(edges, t)
    ensures forall t :: t in changes ==> t < firstNode && changes[t].additional != [] && RemovedOk(changes[t])
  {
    changes := map[];
    for i := 0 to |closest|
      invariant AddedUpTo(edges, firstNode, i, changes)
    {
      ghost var before := changes;
      var towerNode := edges[4 * i + SNAP_BASE].adjNode;
      if towerNode < firstNode {
        AddedOne(changes, towerNode, edges[4 * i + BASE_SNAP]);
        changes := WithAdded(changes, towerNode, edges[4 * i + BASE_SNAP]);
      }
      ghost var middle := changes;
      towerNode := edges[4 * i + SNAP_ADJ].adjNode;
      if towerNode < firstNode {
        AddedOne(changes, towerNode, edges[4 * i + ADJ_SNAP]);
        changes := WithAdded(changes, towerNode, edges[4 * i + ADJ_SNAP]);
      }
      forall t | t < firstNode ensures Added(changes, t) == Leaving(edges[..4 * (i + 1)], t) {
        FourMore(edges, closest, firstNode, firstEdge, i, t);
        assert Added(before, t) == Leaving(edges[..4 * i], t);
        assert Added(middle, t) == Added(before, t) + if edges[4 * i + SNAP_BASE].adjNode == t then [edges[4 * i + BASE_SNAP]] else [];
        assert Added(changes, t) == Added(middle, t) + if towerNode == t then [edges[4 * i + ADJ_SNAP]] else [];
      }
    }
    assert edges[..4 * |closest|] == edges;
    ghost var added := changes;
    changes := AddRemoved(changes, edges, closest, firstNode, firstEdge);
    forall t | t in changes ensures t < firstNode && changes[t].additional != [] && RemovedOk(changes[t]) {
      assert t in changes.Keys && t in added;
    }
    forall t | t < firstNode ensures Added(changes, t) == Leaving(edges, t) {
      assert t in changes.Keys <==> t in added.Keys;
      assert Added(added, t) == Leaving(edges, t);
    }
  }

  ghost predicate RemovedOk(c: EdgeChanges) {
    |c.removed| == |c.additional| && forall k :: 0 <= k < |c.removed| ==> c.removed[k] == EdgeOfKey(c.additional[k].originalKey)
  }

  function RemovedEdge(closest: seq<int>, firstNode: int, e: VirtualEdge): int {
    var i := e.adjNode - firstNode;
    if 0 <= i < |closest| then closest[i] else -1
  }

  function WithRemoved(c: EdgeChanges, closest: seq<int>, firstNode: int): EdgeChanges {
    c.(removed := seq(|c.additional|, k requires 0 <= k < |c.additional| => RemovedEdge(closest, firstNode, c.additional[k])))
  }

  /** Every virtual edge that is added takes the place of the edge its virtual node lies on. */
  method AddRemoved(changes0: Changes, edges: seq<VirtualEdge>, closest: seq<int>, firstNode: int, ghost firstEdge: int) returns (changes: Changes)
    requires NodesOk(edges, closest, firstNode, firstEdge)
    requires forall t {:trigger Added(changes0, t)} :: t < firstNode ==> Added(changes0, t) == Leaving(edges, t)
    requires forall t :: t in changes0 ==> t < firstNode
    ensures changes.Keys == changes0.Keys && forall t :: t in changes ==> changes[t].additional == changes0[t].additional && RemovedOk(changes[t])
  {
    changes := map node | node in changes0 :: WithRemoved(changes0[node], closest, firstNode);
    forall t | t in changes ensures RemovedOk(changes[t]) {
      forall k | 0 <= k < |changes[t].additional| ensures changes[t].removed[k] == EdgeOfKey(changes[t].additional[k].originalKey) {
        assert changes[t].additional[k] in Added(changes0, t);
        PieceLeadsTo(edges, closest, firstNode, firstEdge, changes[t].additional[k]);
      }
    }
  }

  lemma {:induction false} PieceLeadsTo(edges: seq<VirtualEdge>, closest: seq<int>, firstNode: int, firstEdge: int, e: VirtualEdge)
    requires NodesOk(edges, closest, firstNode, firstEdge) && e in edges && e.baseNode < firstNode
    ensures 0 <= e.adjNode - firstNode < |closest| && closest[e.adjNode - firstNode] == EdgeOfKey(e.originalKey)
  {
    var p :| 0 <= p < |edges| && edges[p] == e;
    var i := OutwardSlot(edges, closest, firstNode, firstEdge, p);
    assert NodeOk(edges, closest, firstNode, firstEdge, i);
    SameEdge(edges[4 * i + SNAP_ADJ].originalKey);
  }

  /** A real node loses exactly the split edges that end there. */
  lemma {:induction false} LosesSplitEdges(edges: seq<VirtualEdge>, closest: seq<int>, firstNode: int, firstEdge: int, chains: seq<SplitInfo>,
                                           changes: Changes, node: int, id: int)
    requires NodesOk(edges, closest, firstNode, firstEdge) && ChainsOk(edges, |closest|, firstNode, firstEdge, chains) && node < firstNode
    requires Added(changes, node) == Leaving(edges, node)
    requires node in changes ==> RemovedOk(changes[node])
    ensures (node in changes && id in changes[node].removed)
       <==> (exists c :: c in chains && EdgeOfKey(c.edge.key) == id && (c.edge.baseNode == node || c.edge.adjNode == node))
  {
    PiecesAtNode(edges, closest, firstNode, firstEdge, chains, node, id);
    if node in changes && id in changes[node].removed {
      var k :| 0 <= k < |changes[node].removed| && changes[node].removed[k] == id;
      assert changes[node].additional[k] in Added(changes, node);
    }
    if e :| LeavesAt(edges, node, e) && EdgeOfKey(e.originalKey) == id {
      assert e in Added(changes, node);
      var k :| 0 <= k < |changes[node].additional| && changes[node].additional[k] == e;
      assert changes[node].removed[k] == id;
    }
  }

  /** Those of a list that are not in another, in order. */
  ghost function Others(ids: seq<int>, removed: seq<int>): (r: seq<int>)
    ensures forall id :: id in r <==> id in ids && id !in removed
  {
    if ids == [] then [] else
      Others(ids[..|ids| - 1], removed) + if ids[|ids| - 1] in removed then [] else [ids[|ids| - 1]]
  }

  /** The edges of a real node in the query graph: the added ones, and those of its own that are
      not removed. */
  method EdgesAtRealNode(changes: Changes, node: int, incident: seq<int>) returns (added: seq<VirtualEdge>, kept: seq<int>)
    ensures added == Added(changes, node)
    ensures kept == if node in changes then Others(incident, changes[node].removed) else incident
  {
    added, kept := [], incident;
    if node in changes {
      added, kept := changes[node].additional, [];
      for i := 0 to |incident|
        invariant kept == Others(incident[..i], changes[node].removed)
      {
        if incident[i] !in changes[node].removed {
          kept := kept + [incident[i]];
        }
        assert incident[..i + 1][..i] == incident[..i];
      }
      assert incident[..|incident|] == incident;
    }
  }
}
