/** The Ramer-Douglas-Peucker algorithm on a list of points, which marks the points it drops. */
module RamerDouglasPeuckers {

  /** A point, or the mark of a dropped one. */
  datatype Point = Point(lat: real, lon: real, ele: real) | Dropped

  /** The distance of a point from the chord of two others. */
  type Distance = (Point, Point, Point) -> real

  ghost predicate NonNegative(dist: Distance) {
    forall p, a, b :: dist(p, a, b) >= 0.0
  }

  ghost predicate Present(ps: seq<Point>, from: int, last: int) {
    0 <= from <= last < |ps| && forall i {:trigger ps[i]} :: from <= i <= last ==> ps[i].Point?
  }

  /** The first point with the greatest distance among those between from and upTo. */
  ghost function Farthest(ps: seq<Point>, dist: Distance, from: int, last: int, upTo: int): (m: int)
    requires 0 <= from && from + 2 <= upTo <= last < |ps|
    ensures from < m < upTo
    decreases upTo
  {
    if upTo == from + 2 then from + 1 else
      var m := Farthest(ps, dist, from, last, upTo - 1);
      if dist(ps[upTo - 1], ps[from], ps[last]) > dist(ps[m], ps[from], ps[last]) then upTo - 1 else m
  }

  lemma {:induction false} FarthestIsFirst(ps: seq<Point>, dist: Distance, from: int, last: int, upTo: int)
    requires 0 <= from && from + 2 <= upTo <= last < |ps|
    ensures var m := Farthest(ps, dist, from, last, upTo);
            && (forall j :: from < j < upTo ==> dist(ps[j], ps[from], ps[last]) <= dist(ps[m], ps[from], ps[last]))
            && forall j :: from < j < m ==> dist(ps[j], ps[from], ps[last]) < dist(ps[m], ps[from], ps[last])
    decreases upTo
  {
    if upTo > from + 2 {
      FarthestIsFirst(ps, dist, from, last, upTo - 1);
    }
  }

  ghost function Between(from: int, last: int): (r: set<int>)
    ensures forall i {:trigger i in r} :: i in r <==> from < i < last
    decreases last - from
  {
    if last - from < 2 then {} else Between(from, last - 1) + {last - 1}
  }

  /** The points dropped between from and last. */
  ghost function Rdp(ps: seq<Point>, dist: Distance, limit: real, from: int, last: int): (r: set<int>)
    requires 0 <= from <= last < |ps|
    ensures r <= Between(from, last)
    decreases last - from
  {
    if last - from < 2 then {} else
      var m := Farthest(ps, dist, from, last, last);
      if dist(ps[m], ps[from], ps[last]) < limit then Between(from, last)
      else Rdp(ps, dist, limit, from, m) + Rdp(ps, dist, limit, m, last)
  }

  /** In steps of a fixed number of points when the distance is an approximation. */
  ghost function RangeRdp(ps: seq<Point>, dist: Distance, limit: real, approx: bool, from: int, last: int): (r: set<int>)
    requires 0 <= from <= last < |ps|
    ensures r <= Between(from, last)
    decreases last - from
  {
    if approx && last - from >= 500
    then Rdp(ps, dist, limit, from, from + 500) + RangeRdp(ps, dist, limit, approx, from + 500, last)
    else Rdp(ps, dist, limit, from, last)
  }

  /** The list with the points of a set marked. */
  ghost function Marked(ps: seq<Point>, drop: set<int>): seq<Point> {
    seq(|ps|, i requires 0 <= i < |ps| => if i in drop then Dropped else ps[i])
  }

  lemma MarkedTwice(ps: seq<Point>, a: set<int>, b: set<int>)
    ensures Marked(Marked(ps, a), b) == Marked(ps, a + b)
  {
  }

  // ----- what is dropped depends on the points of the range only

  ghost predicate SameBetween(ps: seq<Point>, ps': seq<Point>, from: int, last: int) {
    0 <= from <= last < |ps| == |ps'| && forall i {:trigger ps[i]} {:trigger ps'[i]} :: from <= i <= last ==> ps'[i] == ps[i]
  }

  lemma {:induction false} FarthestLocal(ps: seq<Point>, ps': seq<Point>, dist: Distance, from: int, last: int, upTo: int)
    requires SameBetween(ps, ps', from, last) && from + 2 <= upTo <= last
    ensures Farthest(ps', dist, from, last, upTo) == Farthest(ps, dist, from, last, upTo)
    decreases upTo
  {
    if upTo > from + 2 {
      FarthestLocal(ps, ps', dist, from, last, upTo - 1);
    }
  }

  lemma {:induction false} RdpLocal(ps: seq<Point>, ps': seq<Point>, dist: Distance, limit: real, from: int, last: int)
    requires SameBetween(ps, ps', from, last)
    ensures Rdp(ps', dist, limit, from, last) == Rdp(ps, dist, limit, from, last)
    decreases last - from
  {
    if last - from >= 2 {
      FarthestLocal(ps, ps', dist, from, last, last);
      var m := Farthest(ps, dist, from, last, last);
      RdpLocal(ps, ps', dist, limit, from, m);
      RdpLocal(ps, ps', dist, limit, m, last);
    }
  }

  lemma {:induction false} RangeRdpLocal(ps: seq<Point>, ps': seq<Point>, dist: Distance, limit: real, approx: bool, from: int, last: int)
    requires SameBetween(ps, ps', from, last)
    ensures RangeRdp(ps', dist, limit, approx, from, last) == RangeRdp(ps, dist, limit, approx, from, last)
    decreases last - from
  {
    if approx && last - from >= 500 {
      RdpLocal(ps, ps', dist, limit, from, from + 500);
      RangeRdpLocal(ps, ps', dist, limit, approx, from + 500, last);
    } else {
      RdpLocal(ps, ps', dist, limit, from, last);
    }
  }

  // ----- every dropped point is near the line that is left

  /** The points next to a dropped one that are left, and its distance from their chord. */
  ghost predicate Near(ps: seq<Point>, dist: Distance, limit: real, drop: set<int>, i: int, a: int, b: int) {
    && 0 <= a < i < b < |ps| && a !in drop && b !in drop && Between(a, b) <= drop
    && dist(ps[i], ps[a], ps[b]) < limit
  }

  lemma {:induction false} DroppedNear(ps: seq<Point>, dist: Distance, limit: real, from: int, last: int, i: int) returns (a: int, b: int)
    requires 0 <= from <= last < |ps| && i in Rdp(ps, dist, limit, from, last)
    ensures from <= a && b <= last && Near(ps, dist, limit, Rdp(ps, dist, limit, from, last), i, a, b)
    decreases last - from
  {
    var drop, m := Rdp(ps, dist, limit, from, last), Farthest(ps, dist, from, last, last);
    FarthestIsFirst(ps, dist, from, last, last);
    if dist(ps[m], ps[from], ps[last]) < limit {
      return from, last;
    }
    if i in Rdp(ps, dist, limit, from, m) {
      a, b := DroppedNear(ps, dist, limit, from, m, i);
    } else {
      a, b := DroppedNear(ps, dist, limit, m, last, i);
    }
  }

  lemma {:induction false} DroppedNearInRange(ps: seq<Point>, dist: Distance, limit: real, approx: bool, from: int, last: int, i: int)
    returns (a: int, b: int)
    requires 0 <= from <= last < |ps| && i in RangeRdp(ps, dist, limit, approx, from, last)
    ensures from <= a && b <= last && Near(ps, dist, limit, RangeRdp(ps, dist, limit, approx, from, last), i, a, b)
    decreases last - from
  {
    if approx && last - from >= 500 {
      var drop := RangeRdp(ps, dist, limit, approx, from, last);
      if i in Rdp(ps, dist, limit, from, from + 500) {
        a, b := DroppedNear(ps, dist, limit, from, from + 500, i);
      } else {
        a, b := DroppedNearInRange(ps, dist, limit, approx, from + 500, last, i);
      }
    } else {
      a, b := DroppedNear(ps, dist, limit, from, last, i);
    }
  }

  /** Every point that is left between the ends is too far from the chord of two others that are left. */
  lemma {:induction false} LeftIsFar(ps: seq<Point>, dist: Distance, limit: real, from: int, last: int, i: int) returns (a: int, b: int)
    requires 0 <= from < i < last < |ps| && i !in Rdp(ps, dist, limit, from, last)
    ensures from <= a < i < b <= last && a !in Rdp(ps, dist, limit, from, last) && b !in Rdp(ps, dist, limit, from, last)
    ensures dist(ps[i], ps[a], ps[b]) >= limit
    ensures forall j {:trigger ps[j]} :: a < j < b ==> dist(ps[j], ps[a], ps[b]) <= dist(ps[i], ps[a], ps[b])
    decreases last - from
  {
    var m := Farthest(ps, dist, from, last, last);
    FarthestIsFirst(ps, dist, from, last, last);
    if i == m {
      return from, last;
    }
    if i < m {
      a, b := LeftIsFar(ps, dist, limit, from, m, i);
    } else {
      a, b := LeftIsFar(ps, dist, limit, m, last, i);
    }
  }

  /** The ends of the segments inside a range stay. */
  ghost predicate IsSegmentEnd(approx: bool, from: int, i: int) {
    approx && i > from && (i - from) % 500 == 0
  }

  lemma SegmentEnds(approx: bool, from: int, i: int)
    requires i > from
    ensures if i <= from + 500 then IsSegmentEnd(approx, from, i) <==> approx && i == from + 500
            else IsSegmentEnd(approx, from, i) <==> IsSegmentEnd(approx, from + 500, i)
  {
  }

  /** Point i is left, and so are a and b; between them i is the farthest from their chord, and not
      within the tolerance. */
  ghost predicate IsFar(ps: seq<Point>, dist: Distance, limit: real, drop: set<int>, i: int, a: int, b: int) {
    && 0 <= a < i < b < |ps| && a !in drop && i !in drop && b !in drop && dist(ps[i], ps[a], ps[b]) >= limit
    && forall j {:trigger ps[j]} :: a < j < b ==> dist(ps[j], ps[a], ps[b]) <= dist(ps[i], ps[a], ps[b])
  }

  /** In a range that is simplified in segments, every point that is left is a segment end or far
      from the chord of two others that are left in its segment. */
  lemma {:induction false} LeftIsFarInRange(ps: seq<Point>, dist: Distance, limit: real, approx: bool, from: int, last: int, i: int)
    returns (a: int, b: int)
    requires 0 <= from < i < last < |ps|
    ensures IsSegmentEnd(approx, from, i) ==> i !in RangeRdp(ps, dist, limit, approx, from, last)
    ensures i !in RangeRdp(ps, dist, limit, approx, from, last) && !IsSegmentEnd(approx, from, i) ==>
              && from <= a && b <= last && IsFar(ps, dist, limit, RangeRdp(ps, dist, limit, approx, from, last), i, a, b)
              && (approx ==> b - a <= 500)
    decreases last - from
  {
    a, b := from, last;
    SegmentEnds(approx, from, i);
    if approx && last - from >= 500 && i > from + 500 {
      a, b := LeftIsFarInRange(ps, dist, limit, approx, from + 500, last, i);
    } else if approx && last - from >= 500 {
      if i < from + 500 && i !in Rdp(ps, dist, limit, from, from + 500) {
        a, b := LeftIsFar(ps, dist, limit, from, from + 500, i);
      }
    } else if i !in Rdp(ps, dist, limit, from, last) {
      a, b := LeftIsFar(ps, dist, limit, from, last, i);
    }
  }

  // ----- the list and the algorithm

  class PointList {
    var points: seq<Point>

    constructor (points: seq<Point>)
      ensures this.points == points
    {
      this.points := points;
    }
  }

  class RamerDouglasPeucker {
    const dist: Distance
    const limit: real
    const approx: bool

    ghost predicate Valid() {
      NonNegative(dist)
    }

    constructor (dist: Distance, limit: real, approx: bool)
      requires NonNegative(dist)
      ensures Valid() && this.dist == dist && this.limit == limit && this.approx == approx
    {
      this.dist, this.limit, this.approx := dist, limit, approx;
    }

    /** Marks the points between two that can be dropped and counts them. */
    method SubSimplify(list: PointList, fromIndex: int, lastIndex: int) returns (removed: nat)
      requires Valid() && Present(list.points, fromIndex, lastIndex)
      modifies list
      ensures list.points == Marked(old(list.points), Rdp(old(list.points), dist, limit, fromIndex, lastIndex))
      ensures removed == |Kept(old(list.points))| - |Kept(list.points)|
      decreases lastIndex - fromIndex
    {
      ghost var ps := list.points;
      if lastIndex - fromIndex < 2 {
        assert Marked(ps, {}) == ps;
        return 0;
      }
      var indexWithMaxDist, maxDist := FindFarthest(list, fromIndex, lastIndex);
      if maxDist < limit {
        removed := lastIndex - fromIndex - 1;
        MarkBetween(list, fromIndex, lastIndex);
      } else {
        var m := indexWithMaxDist;
        ghost var left := Rdp(ps, dist, limit, fromIndex, m);
        assert Present(ps, fromIndex, m) && Present(ps, m, lastIndex);
        var r1 := SubSimplify(list, fromIndex, m);
        assert SameBetween(ps, list.points, m, lastIndex);
        RdpLocal(ps, list.points, dist, limit, m, lastIndex);
        var r2 := SubSimplify(list, m, lastIndex);
        removed := r1 + r2;
        MarkedTwice(ps, left, Rdp(ps, dist, limit, m, lastIndex));
      }
    }

    method FindFarthest(list: PointList, fromIndex: int, lastIndex: int) returns (indexWithMaxDist: int, maxDist: real)
      requires Valid() && Present(list.points, fromIndex, lastIndex) && lastIndex - fromIndex >= 2
      ensures indexWithMaxDist == Farthest(list.points, dist, fromIndex, lastIndex, lastIndex)
      ensures maxDist == dist(list.points[indexWithMaxDist], list.points[fromIndex], list.points[lastIndex])
    {
      indexWithMaxDist, maxDist := -1, -1.0;
      var ps := list.points;
      var i := fromIndex + 1;
      while i < lastIndex
        invariant fromIndex < i <= lastIndex
        invariant i == fromIndex + 1 ==> maxDist == -1.0
        invariant i > fromIndex + 1 ==>
                    && indexWithMaxDist == Farthest(ps, dist, fromIndex, lastIndex, i)
                    && maxDist == dist(ps[indexWithMaxDist], ps[fromIndex], ps[lastIndex])
      {
        if ps[i].Point? {
          var d := dist(ps[i], ps[fromIndex], ps[lastIndex]);
          if maxDist < d {
            indexWithMaxDist, maxDist := i, d;
          }
        }
        i := i + 1;
      }
    }

    method MarkBetween(list: PointList, fromIndex: int, lastIndex: int)
      requires fromIndex < lastIndex && Present(list.points, fromIndex, lastIndex)
      modifies list
      ensures list.points == Marked(old(list.points), Between(fromIndex, lastIndex))
      ensures |Kept(old(list.points))| - |Kept(list.points)| == lastIndex - fromIndex - 1
    {
      var i := fromIndex + 1;
      while i < lastIndex
        invariant fromIndex < i <= lastIndex
        invariant list.points == Marked(old(list.points), Between(fromIndex, i))
        invariant |Kept(old(list.points))| - |Kept(list.points)| == i - fromIndex - 1
      {
        OneLessKept(list.points, i);
        list.points := list.points[i := Dropped];
        i := i + 1;
      }
    }

    /** Marks the points of a range that can be dropped; its ends are kept. */
    method SimplifyRange(list: PointList, fromIndex: int, lastIndex: int, compress: bool) returns (removed: nat)
      requires Valid() && Present(list.points, fromIndex, lastIndex)
      modifies list
      ensures removed == |Kept(old(list.points))| - |Kept(Marked(old(list.points), RangeRdp(old(list.points), dist, limit, approx, fromIndex, lastIndex)))|
      ensures var marked := Marked(old(list.points), RangeRdp(old(list.points), dist, limit, approx, fromIndex, lastIndex));
              list.points == if compress && removed > 0 then Kept(marked) else marked
    {
      if approx {
        removed := SimplifySegments(list, fromIndex, lastIndex);
      } else {
        removed := SubSimplify(list, fromIndex, lastIndex);
      }
      if removed > 0 && compress {
        RemoveNaN(list);
      }
    }

    method SimplifySegments(list: PointList, fromIndex: int, lastIndex: int) returns (removed: nat)
      requires Valid() && Present(list.points, fromIndex, lastIndex) && approx
      modifies list
      ensures removed == |Kept(old(list.points))| - |Kept(list.points)|
      ensures list.points == Marked(old(list.points), RangeRdp(old(list.points), dist, limit, approx, fromIndex, lastIndex))
    {
      ghost var ps := list.points;
      var segments := NumberOfSegments(lastIndex - fromIndex);
      var start;
      removed, start := RunSegments(list, ps, fromIndex, lastIndex, segments);
      AllSegments(ps, dist, limit, fromIndex, lastIndex, segments, start);
    }

    method RunSegments(list: PointList, ghost ps: seq<Point>, fromIndex: int, lastIndex: int, segments: nat) returns (removed: nat, start: int)
      requires Valid() && Present(ps, fromIndex, lastIndex) && list.points == ps
      requires 500 * segments <= lastIndex - fromIndex + 500
      modifies list
      ensures removed == |Kept(ps)| - |Kept(list.points)| && start == fromIndex + 500 * segments
      ensures list.points == Marked(ps, Before(ps, dist, limit, fromIndex, lastIndex, start))
    {
      removed, start := 0, fromIndex;
      assert Marked(ps, {}) == ps;
      for k := 0 to segments
        invariant start == fromIndex + 500 * k
        invariant list.points == Marked(ps, Before(ps, dist, limit, fromIndex, lastIndex, start))
        invariant removed == |Kept(ps)| - |Kept(list.points)|
      {
        assert fromIndex <= start <= lastIndex;
        var r := SimplifySegment(list, ps, fromIndex, lastIndex, start);
        removed := removed + r;
        start := start + 500;
      }
    }

    method SimplifySegment(list: PointList, ghost ps: seq<Point>, ghost from: int, last: int, start: int) returns (removed: nat)
      requires Valid() && Present(ps, from, last) && from <= start <= last
      requires list.points == Marked(ps, Before(ps, dist, limit, from, last, start))
      modifies list
      ensures list.points == Marked(ps, Before(ps, dist, limit, from, last, start + 500))
      ensures removed == |Kept(old(list.points))| - |Kept(list.points)|
    {
      ghost var done := Before(ps, dist, limit, from, last, start);
      var end := if last < start + 500 then last else start + 500;
      ghost var here := Rdp(ps, dist, limit, start, end);
      assert SameBetween(ps, list.points, start, end);
      RdpLocal(ps, list.points, dist, limit, start, end);
      removed := SubSimplify(list, start, end);
      MarkedTwice(ps, done, here);
    }
  }

  /** What is dropped in the segments before start. */
  ghost function Before(ps: seq<Point>, dist: Distance, limit: real, from: int, last: int, start: int): (r: set<int>)
    ensures forall i {:trigger i in r} :: i in r ==> i < start
    decreases start
  {
    if start < from + 500 || last < start - 500 || !(0 <= from <= last < |ps|) then {}
    else Before(ps, dist, limit, from, last, start - 500) + Rdp(ps, dist, limit, start - 500, if last < start then last else start)
  }

  method NumberOfSegments(size: nat) returns (n: nat)
    ensures 500 * n <= size + 500 < 500 * n + 500
  {
    n := size / 500 + 1;
  }

  lemma {:induction false} BeforeAndAfter(ps: seq<Point>, dist: Distance, limit: real, from: int, last: int, start: int, k: nat)
    requires 0 <= from <= start <= last < |ps| && start == from + 500 * k
    ensures RangeRdp(ps, dist, limit, true, from, last) == Before(ps, dist, limit, from, last, start) + RangeRdp(ps, dist, limit, true, start, last)
    decreases k
  {
    if k > 0 {
      var s := start - 500;
      BeforeAndAfter(ps, dist, limit, from, last, s, k - 1);
      assert RangeRdp(ps, dist, limit, true, s, last) == Rdp(ps, dist, limit, s, start) + RangeRdp(ps, dist, limit, true, start, last);
    }
  }

  lemma AllSegments(ps: seq<Point>, dist: Distance, limit: real, from: int, last: int, segments: nat, end: int)
    requires 0 <= from <= last < |ps| && 500 * segments <= last - from + 500 < 500 * segments + 500 && end == from + 500 * segments
    ensures Before(ps, dist, limit, from, last, end) == RangeRdp(ps, dist, limit, true, from, last)
  {
    BeforeAndAfter(ps, dist, limit, from, last, end - 500, segments - 1);
  }

  // ----- taking the marked points out

  /** The points that are left, in order. */
  ghost function Kept(ps: seq<Point>): seq<Point> {
    if ps == [] then [] else Kept(ps[..|ps| - 1]) + if ps[|ps| - 1].Dropped? then [] else [ps[|ps| - 1]]
  }

  lemma {:induction false} OneLessKept(ps: seq<Point>, i: nat)
    requires i < |ps| && ps[i].Point?
    ensures |Kept(ps[i := Dropped])| == |Kept(ps)| - 1
    decreases |ps|
  {
    var n := |ps| - 1;
    if i < n {
      assert ps[i := Dropped][..n] == ps[..n][i := Dropped];
      OneLessKept(ps[..n], i);
    } else {
      assert ps[i := Dropped][..n] == ps[..n];
    }
  }

  /** If as many points are left as there were, they are the same. */
  lemma {:induction false} AllKept(ps: seq<Point>)
    ensures |Kept(ps)| <= |ps| && (|Kept(ps)| == |ps| <==> Kept(ps) == ps)
    ensures ps != [] && Present(ps, 0, |ps| - 1) ==> Kept(ps) == ps
  {
    if ps != [] {
      var n := |ps| - 1;
      AllKept(ps[..n]);
      assert ps == ps[..n] + [ps[n]];
    }
  }

  /** Moves the points that are left to the front, in place, and cuts the list behind them. */
  method RemoveNaN(list: PointList)
    modifies list
    ensures list.points == Kept(old(list.points))
  {
    ghost var ps := list.points;
    var curr, i := 0, 0;
    while i < |list.points|
      invariant 0 <= curr <= i <= |ps| == |list.points|
      invariant list.points[..curr] == Kept(ps[..i]) && forall j :: i <= j < |ps| ==> list.points[j] == ps[j]
    {
      assert ps[..i + 1][..i] == ps[..i];
      if list.points[i].Point? {
        ghost var was := list.points;
        list.points := list.points[curr := list.points[i]];
        assert list.points[..curr + 1] == was[..curr] + [was[i]];
        curr := curr + 1;
      }
      i := i + 1;
    }
    assert ps[..i] == ps;
    list.points := list.points[..curr];
  }
}
