/** The search for the edge closest to a point: ring by ring around the cell of the point, until
    nothing outside can be closer. */
module LocationIndex {
  import opened LineIndex

  /** The closest edge found so far. */
  datatype Snap = NoSnap | Snap(closestEdge: int, distance: real)

  /** The snap is to an accepted edge of the list, and no accepted edge of the list is closer. */
  ghost predicate IsClosest(snap: Snap, ids: seq<int>, accepts: int -> bool, distance: int -> real) {
    match snap
    case NoSnap => forall e :: e in ids ==> !accepts(e)
    case Snap(edge, d) =>
      edge in ids && accepts(edge) && d == distance(edge) && forall e :: e in ids && accepts(e) ==> d <= distance(e)
  }

  ghost predicate SeenExactly(seen: set<int>, ids: seq<int>) {
    forall e :: e in seen <==> e in ids
  }

  /** Every cell of the grid in the first r rings, each once. */
  ghost predicate InnerRings(tiles: seq<Tile>, c: Tile, parts: nat, r: nat) {
    Lists(tiles, parts, t => Distance(c, t) < r)
  }

  /** The rings within a distance, and the next one. */
  lemma RingsJoin(c: Tile, r: nat, parts: nat, inner: seq<Tile>, ring: seq<Tile>)
    requires InnerRings(inner, c, parts, r) && Lists(ring, parts, t => Distance(c, t) == r)
    ensures InnerRings(inner + ring, c, parts, r + 1)
  {
    var all, wanted := inner + ring, t => Distance(c, t) < r + 1;
    var within, at := t => Distance(c, t) < r, t => Distance(c, t) == r;
    forall t ensures t in all <==> InGrid(parts, t) && wanted(t) {
      assert (t in inner <==> InGrid(parts, t) && within(t)) && (t in ring <==> InGrid(parts, t) && at(t));
    }
    forall i, j | 0 <= i < j < |all| ensures all[i] != all[j] {
      if i < |inner| <= j {
        assert inner[i] in inner && ring[j - |inner|] in ring && within(inner[i]) && at(ring[j - |inner|]);
      } else if j < |inner| {
        assert all[i] == inner[i] && all[j] == inner[j];
      } else {
        assert all[i] == ring[i - |inner|] && all[j] == ring[j - |inner|];
      }
    }
  }

  lemma {:induction false} GatheredJoins(index: LineIntIndex, a: seq<Tile>, b: seq<Tile>)
    requires index.Valid()
    ensures index.Gathered(a + b) == index.Gathered(a) + index.Gathered(b)
  {
    if b == [] {
      assert a + b == a;
    } else {
      var n := |b| - 1;
      GatheredJoins(index, a, b[..n]);
      assert (a + b)[..|a + b| - 1] == a + b[..n];
    }
  }

  class LocationIndexTree {
    const lineIntIndex: LineIntIndex
    const maxRegionSearch: nat

    constructor (lineIntIndex: LineIntIndex, maxRegionSearch: nat)
      ensures this.lineIntIndex == lineIntIndex && this.maxRegionSearch == maxRegionSearch
    {
      this.lineIntIndex, this.maxRegionSearch := lineIntIndex, maxRegionSearch;
    }

    /** Lets the edges that were not seen before compete for the snap. */
    method CheckEdges(ids: seq<int>, ghost before: seq<int>, seen: set<int>, snap: Snap, accepts: int -> bool, distance: int -> real)
      returns (seen': set<int>, snap': Snap)
      requires SeenExactly(seen, before) && IsClosest(snap, before, accepts, distance)
      ensures SeenExactly(seen', before + ids) && IsClosest(snap', before + ids, accepts, distance)
    {
      seen', snap' := seen, snap;
      assert before + ids[..0] == before;
      for i := 0 to |ids|
        invariant SeenExactly(seen', before + ids[..i]) && IsClosest(snap', before + ids[..i], accepts, distance)
      {
        var e := ids[i];
        assert before + ids[..i + 1] == before + ids[..i] + [e];
        if e in seen' {
          continue;
        }
        seen' := seen' + {e};
        if accepts(e) && (snap'.NoSnap? || distance(e) < snap'.distance) {
          snap' := Snap(e, distance(e));
        }
      }
      assert ids[..|ids|] == ids;
    }

    /** The cells searched so far, the ids found in them, and the closest of these. */
    ghost predicate Searched(c: Tile, rings: nat, tiles: seq<Tile>, ids: seq<int>, seen: set<int>, snap: Snap,
                             accepts: int -> bool, distance: int -> real)
      reads lineIntIndex
      requires lineIntIndex.Valid()
    {
      && InnerRings(tiles, c, lineIntIndex.Parts(), rings) && ids == lineIntIndex.Gathered(tiles)
      && SeenExactly(seen, ids) && IsClosest(snap, ids, accepts, distance)
    }

    method SearchRing(x: int, y: int, iteration: nat, accepts: int -> bool, distance: int -> real,
                      seen: set<int>, snap: Snap, ghost tiles: seq<Tile>, ghost ids: seq<int>)
      returns (seen': set<int>, snap': Snap, ghost tiles': seq<Tile>, ghost ids': seq<int>)
      requires lineIntIndex.Valid() && Searched((x, y), iteration, tiles, ids, seen, snap, accepts, distance)
      ensures Searched((x, y), iteration + 1, tiles', ids', seen', snap', accepts, distance)
    {
      var found;
      ghost var ring;
      found, ring := lineIntIndex.FindEdgeIdsInNeighborhood(x, y, iteration);
      RingsJoin((x, y), iteration, lineIntIndex.Parts(), tiles, ring);
      GatheredJoins(lineIntIndex, tiles, ring);
      seen', snap' := CheckEdges(found, ids, seen, snap, accepts, distance);
      tiles', ids' := tiles + ring, ids + found;
    }

    /** The closest accepted edge to a point in the cell (x, y), of those put into the grid. The
        search ends with the first ring that leaves nothing closer outside, and then no accepted
        edge is closer that was put anywhere; or with the last ring. */
    method FindClosest(x: int, y: int, accepts: int -> bool, distance: int -> real, rMin: int -> real, ghost puts: seq<(Tile, int)>)
      returns (snap: Snap, ghost rings: nat)
      requires lineIntIndex.Indexes(puts)
      ensures snap.NoSnap? ==> forall e :: accepts(e) ==> !PutWithin(puts, e, (x, y), maxRegionSearch)
      ensures snap.Snap? ==> accepts(snap.closestEdge) && snap.distance == distance(snap.closestEdge)
                             && PutWithin(puts, snap.closestEdge, (x, y), maxRegionSearch)
      ensures rings <= maxRegionSearch && ClosestWithin(snap, (x, y), rings, puts, accepts, distance)
      ensures rings < maxRegionSearch ==> rings > 0 && snap.Snap? && snap.distance < rMin(rings - 1)
      ensures forall r: nat :: r + 1 < rings ==> NothingNear((x, y), r, puts, accepts, distance, rMin)
      ensures rings < maxRegionSearch && FarOutside((x, y), puts, accepts, distance, rMin)
              ==> forall i {:trigger puts[i]} :: 0 <= i < |puts| && accepts(puts[i].1) ==> snap.distance <= distance(puts[i].1)
    {
      var seen: set<int>;
      seen, snap, rings := {}, NoSnap, 0;
      ghost var tiles, ids := [], [];
      SearchStart((x, y), accepts, distance);
      for iteration := 0 to maxRegionSearch
        invariant rings == iteration && Searched((x, y), rings, tiles, ids, seen, snap, accepts, distance)
        invariant forall r: nat :: r < rings ==> NothingNear((x, y), r, puts, accepts, distance, rMin)
      {
        seen, snap, tiles, ids := SearchRing(x, y, iteration, accepts, distance, seen, snap, tiles, ids);
        rings := iteration + 1;
        assert rings - 1 == iteration;
        SearchedWithin((x, y), rings, tiles, ids, seen, snap, puts, accepts, distance);
        if snap.Snap? && snap.distance < rMin(iteration) {
          break;
        }
      }
      SearchedWithin((x, y), rings, tiles, ids, seen, snap, puts, accepts, distance);
      if snap.Snap? {
        WithinMore(puts, snap.closestEdge, (x, y), rings, maxRegionSearch);
      }
      if rings < maxRegionSearch && FarOutside((x, y), puts, accepts, distance, rMin) {
        EarlyEndIsExact((x, y), puts, accepts, distance, rMin, snap, rings);
      }
    }

    lemma SearchStart(c: Tile, accepts: int -> bool, distance: int -> real)
      requires lineIntIndex.Valid()
      ensures Searched(c, 0, [], [], {}, NoSnap, accepts, distance)
    {
    }

    lemma SearchedWithin(c: Tile, rings: nat, tiles: seq<Tile>, ids: seq<int>, seen: set<int>, snap: Snap,
                         puts: seq<(Tile, int)>, accepts: int -> bool, distance: int -> real)
      requires lineIntIndex.Indexes(puts) && Searched(c, rings, tiles, ids, seen, snap, accepts, distance)
      ensures ClosestWithin(snap, c, rings, puts, accepts, distance)
    {
      GatheredWithin(c, rings, tiles, ids, puts);
    }

    /** What is found in the first rings is what was put there. */
    lemma GatheredWithin(c: Tile, rings: nat, tiles: seq<Tile>, ids: seq<int>, puts: seq<(Tile, int)>)
      requires lineIntIndex.Indexes(puts) && InnerRings(tiles, c, lineIntIndex.Parts(), rings) && ids == lineIntIndex.Gathered(tiles)
      ensures forall e :: e in ids <==> PutWithin(puts, e, c, rings)
    {
      var index, wanted := lineIntIndex, t => Distance(c, t) < rings;
      forall e ensures e in ids <==> PutWithin(puts, e, c, rings) {
        index.InGathered(tiles, e);
        forall t | t in tiles ensures e in index.At(t) <==> PutThere(puts, t, e) {
          assert t in tiles <==> InGrid(index.Parts(), t) && wanted(t);
          CollectedIds(puts, t, e);
        }
        if t :| t in tiles && PutThere(puts, t, e) {
          assert t in tiles <==> InGrid(index.Parts(), t) && wanted(t);
          var i :| 0 <= i < |puts| && puts[i] == (t, e);
          assert puts[i].1 == e;
        }
        if i :| 0 <= i < |puts| && puts[i].1 == e && Distance(c, puts[i].0) < rings {
          var t := puts[i].0;
          assert t in tiles <==> InGrid(index.Parts(), t) && wanted(t);
          assert puts[i] == (t, e);
        }
      }
    }
  }

  /** The edge was put into a cell less than so many rings away. */
  ghost predicate PutWithin(puts: seq<(Tile, int)>, e: int, c: Tile, rings: nat) {
    exists i {:trigger puts[i]} :: 0 <= i < |puts| && puts[i].1 == e && Distance(c, puts[i].0) < rings
  }

  lemma WithinMore(puts: seq<(Tile, int)>, e: int, c: Tile, rings: nat, more: nat)
    requires PutWithin(puts, e, c, rings) && rings <= more
    ensures PutWithin(puts, e, c, more)
  {
    var i :| 0 <= i < |puts| && puts[i].1 == e && Distance(c, puts[i].0) < rings;
  }

  /** The snap is to the closest accepted edge put within the rings. */
  ghost predicate ClosestWithin(snap: Snap, c: Tile, rings: nat, puts: seq<(Tile, int)>, accepts: int -> bool, distance: int -> real) {
    match snap
    case NoSnap => forall e :: accepts(e) ==> !PutWithin(puts, e, c, rings)
    case Snap(edge, d) =>
      && accepts(edge) && d == distance(edge) && PutWithin(puts, edge, c, rings)
      && forall e :: accepts(e) && PutWithin(puts, e, c, rings) ==> d <= distance(e)
  }

  /** No accepted edge up to the r-th ring is closer than what lies outside. */
  ghost predicate NothingNear(c: Tile, r: nat, puts: seq<(Tile, int)>, accepts: int -> bool, distance: int -> real, rMin: int -> real) {
    forall e :: accepts(e) && PutWithin(puts, e, c, r + 1) ==> distance(e) >= rMin(r)
  }

  /** An accepted edge that was put outside the rings up to the r-th only is at least rMin(r) away. */
  ghost predicate FarOutside(c: Tile, puts: seq<(Tile, int)>, accepts: int -> bool, distance: int -> real, rMin: int -> real) {
    forall i, r: nat {:trigger puts[i], rMin(r)} ::
      0 <= i < |puts| && accepts(puts[i].1) && !PutWithin(puts, puts[i].1, c, r + 1) ==> rMin(r) <= distance(puts[i].1)
  }

  lemma EarlyEndIsExact(c: Tile, puts: seq<(Tile, int)>, accepts: int -> bool, distance: int -> real, rMin: int -> real, snap: Snap, rings: nat)
    requires ClosestWithin(snap, c, rings, puts, accepts, distance) && rings > 0
    requires snap.Snap? && snap.distance < rMin(rings - 1) && FarOutside(c, puts, accepts, distance, rMin)
    ensures forall i {:trigger puts[i]} :: 0 <= i < |puts| && accepts(puts[i].1) ==> snap.distance <= distance(puts[i].1)
  {
    var r: nat := rings - 1;
    assert forall i {:trigger puts[i]} :: 0 <= i < |puts| && accepts(puts[i].1) && !PutWithin(puts, puts[i].1, c, r + 1) ==> rMin(r) <= distance(puts[i].1);
  }

  /** From the puts to the closest edge: the index is built, stored and searched. */
  method IndexAndFindClosest(puts: seq<(Tile, int)>, shifts: seq<nat>, half: bv64, maxRegionSearch: nat, x: int, y: int,
                             accepts: int -> bool, distance: int -> real, rMin: int -> real) returns (snap: Snap)
    requires 0 < half <= 16 && ShiftsOk(shifts) && shifts != [] && HasBits(shifts, 2 * half)
    requires forall i {:trigger puts[i]} :: 0 <= i < |puts| ==> InGrid(PartsOf(shifts), puts[i].0) && puts[i].1 >= 0
    requires FarOutside((x, y), puts, accepts, distance, rMin)
    ensures exists rings: nat {:trigger ClosestWithin(snap, (x, y), rings, puts, accepts, distance)} ::
              && rings <= maxRegionSearch && ClosestWithin(snap, (x, y), rings, puts, accepts, distance)
              && (rings < maxRegionSearch ==>
                    snap.Snap? && forall i {:trigger puts[i]} :: 0 <= i < |puts| && accepts(puts[i].1) ==> snap.distance <= distance(puts[i].1))
  {
    var index := BuildIndex(puts, shifts, half);
    var tree := new LocationIndexTree(index, maxRegionSearch);
    ghost var rings;
    snap, rings := tree.FindClosest(x, y, accepts, distance, rMin, puts);
  }
}
