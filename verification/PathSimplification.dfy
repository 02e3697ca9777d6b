/** Simplifying a list of points that several partitions divide into intervals: the ends of the
    intervals are kept, and the intervals follow the points that are left. */
module PathSimplifications {
  import opened RamerDouglasPeuckers

  class Partition {
    var intervals: seq<(int, int)>

    constructor (intervals: seq<(int, int)>)
      ensures this.intervals == intervals
    {
      this.intervals := intervals;
    }

    function GetIntervalLength(index: int): int
      reads this
      requires 0 <= index < |intervals|
    {
      intervals[index].1 - intervals[index].0
    }

    method SetInterval(index: int, start: int, end: int)
      requires 0 <= index < |intervals|
      modifies this
      ensures intervals == old(intervals)[index := (start, end)]
    {
      intervals := intervals[index := (start, end)];
    }
  }

  // ----- the ends of the intervals

  ghost function Lengths(intervals: seq<(int, int)>): seq<int> {
    seq(|intervals|, j requires 0 <= j < |intervals| => intervals[j].1 - intervals[j].0)
  }

  /** Where interval j starts, and the one before it ends. */
  ghost function Bound(lens: seq<int>, j: int): int
    requires 0 <= j <= |lens|
  {
    if j == 0 then 0 else Bound(lens, j - 1) + lens[j - 1]
  }

  /** The intervals cover n points, each starting where the one before it ends. */
  ghost predicate CoversPoints(lens: seq<int>, n: int) {
    && |lens| > 0 && Bound(lens, |lens|) == n - 1
    && forall j {:trigger lens[j]} :: 0 <= j < |lens| ==> lens[j] >= 0
  }

  lemma BoundsAscend(lens: seq<int>, n: int, i: int, j: int)
    requires CoversPoints(lens, n) && 0 <= i <= j <= |lens|
    ensures 0 <= Bound(lens, i) <= Bound(lens, j) <= n - 1
  {
    BoundsUp(lens, 0, i);
    BoundsUp(lens, i, j);
    BoundsUp(lens, j, |lens|);
  }

  lemma {:induction false} BoundsUp(lens: seq<int>, i: int, j: int)
    requires 0 <= i <= j <= |lens| && forall j {:trigger lens[j]} :: 0 <= j < |lens| ==> lens[j] >= 0
    ensures Bound(lens, i) <= Bound(lens, j)
    decreases j
  {
    if i < j {
      BoundsUp(lens, i, j - 1);
    }
  }

  /** Some interval of some partition ends at p. */
  ghost predicate IsCut(all: seq<seq<int>>, p: int) {
    exists s, j :: EndsAt(all, s, j, p)
  }

  ghost predicate EndsAt(all: seq<seq<int>>, s: int, j: int, p: int) {
    0 <= s < |all| && 0 < j <= |all[s]| && Bound(all[s], j) == p
  }

  ghost function LastCut(all: seq<seq<int>>, p: nat): (q: nat)
    ensures q <= p && (p > 0 ==> q < p)
  {
    if p == 0 then 0 else if IsCut(all, p - 1) then p - 1 else LastCut(all, p - 1)
  }

  /** What is dropped before p: between every two ends that follow each other, what the algorithm
      drops there. */
  ghost function DroppedBefore(ps: seq<Point>, dist: Distance, limit: real, approx: bool, all: seq<seq<int>>, p: nat): (r: set<int>)
    requires p <= |ps|
    ensures forall i {:trigger i in r} :: i in r ==> 0 <= i < LastCut(all, p)
  {
    if p == 0 then {}
    else if IsCut(all, p - 1) then
      DroppedBefore(ps, dist, limit, approx, all, p - 1) + RangeRdp(ps, dist, limit, approx, LastCut(all, p - 1), p - 1)
    else DroppedBefore(ps, dist, limit, approx, all, p - 1)
  }

  /** The place of a point among those that are left. */
  ghost function NewIndex(marked: seq<Point>, q: int): int
    requires 0 <= q <= |marked|
  {
    |Kept(marked[..q])|
  }

  lemma {:induction false} KeptAt(marked: seq<Point>, q: int)
    requires 0 <= q < |marked| && marked[q].Point?
    ensures 0 <= NewIndex(marked, q) < |Kept(marked)| && Kept(marked)[NewIndex(marked, q)] == marked[q]
    decreases |marked|
  {
    var n := |marked| - 1;
    if q < n {
      KeptAt(marked[..n], q);
      assert marked[..n][..q] == marked[..q];
    }
  }

  lemma {:induction false} RestKept(marked: seq<Point>, q: int)
    requires 0 <= q <= |marked| && forall i {:trigger marked[i]} :: q <= i < |marked| ==> marked[i].Point?
    ensures |Kept(marked)| == NewIndex(marked, q) + |marked| - q
    decreases |marked|
  {
    var n := |marked| - 1;
    if q <= n {
      RestKept(marked[..n], q);
      assert marked[..n][..q] == marked[..q];
    } else {
      assert marked[..q] == marked;
    }
  }

  // ----- the state of one partition

  datatype Cursor = Cursor(index: int, start: int, end: int, finished: bool, removedInCurr: int, removedInPrev: int)

  /** The first intervals are those of the points that are left, the others are as they were. */
  ghost predicate Moved(lens: seq<int>, intervals: seq<(int, int)>, marked: seq<Point>, k: int) {
    && 0 <= k <= |lens| == |intervals|
    && forall j :: 0 <= j < |lens| ==> IntervalOk(lens, intervals, marked, k, j)
  }

  /** The interval leads from the point it started at to the point it ended at. */
  ghost predicate IntervalMoved(lens: seq<int>, interval: (int, int), marked: seq<Point>, j: int)
    requires 0 <= j < |lens|
  {
    var from, to := Bound(lens, j), Bound(lens, j + 1);
    && 0 <= from <= to < |marked| && marked[from].Point? && marked[to].Point?
    && interval == (NewIndex(marked, from), NewIndex(marked, to))
  }

  ghost predicate IntervalOk(lens: seq<int>, intervals: seq<(int, int)>, marked: seq<Point>, k: int, j: int)
    requires 0 <= j < |lens| == |intervals|
  {
    if j < k then IntervalMoved(lens, intervals[j], marked, j) else intervals[j].1 - intervals[j].0 == lens[j]
  }

  ghost predicate CursorOk(lens: seq<int>, intervals: seq<(int, int)>, c: Cursor, marked: seq<Point>, cut: int, p: int) {
    && CoversPoints(lens, |marked|) && Moved(lens, intervals, marked, c.index)
    && (c.finished <==> c.index == |lens|)
    && 0 <= Bound(lens, c.index) <= cut < |marked| && marked[Bound(lens, c.index)].Point?
    && (!c.finished ==>
          && c.start == Bound(lens, c.index) && c.end == Bound(lens, c.index + 1) && p <= c.end < |marked|
          && c.removedInPrev == c.start - NewIndex(marked, c.start)
          && c.removedInPrev + c.removedInCurr == |marked| - |Kept(marked)|)
  }

  lemma CursorStarts(lens: seq<int>, intervals: seq<(int, int)>, ps: seq<Point>)
    requires |ps| > 0 && Present(ps, 0, |ps| - 1) && lens == Lengths(intervals) && CoversPoints(lens, |ps|)
    ensures CursorOk(lens, intervals, Cursor(0, 0, lens[0], false, 0, 0), ps, 0, 0)
  {
    RestKept(ps, 0);
    BoundsAscend(lens, |ps|, 0, 1);
    BoundsAscend(lens, |ps|, 1, |lens|);
    assert Bound(lens, 0) == 0 && Bound(lens, 1) == lens[0];
    assert ps[0].Point?;
    assert ps[..0] == [];
    forall j | 0 <= j < |lens| ensures IntervalOk(lens, intervals, ps, 0, j) {
      assert lens[j] == intervals[j].1 - intervals[j].0;
    }
  }

  ghost predicate SameUpTo(marked: seq<Point>, marked': seq<Point>, cut: int) {
    0 <= cut < |marked| == |marked'| && marked'[..cut + 1] == marked[..cut + 1]
  }

  lemma IntervalKept(lens: seq<int>, interval: (int, int), marked: seq<Point>, j: int, k: int, cut: int, marked': seq<Point>)
    requires CoversPoints(lens, |marked|) && 0 <= j < k <= |lens| && IntervalMoved(lens, interval, marked, j) && Bound(lens, k) <= cut
    requires SameUpTo(marked, marked', cut)
    ensures IntervalMoved(lens, interval, marked', j)
  {
    BoundsAscend(lens, |marked|, j + 1, k);
    SamePlace(marked, marked', cut, Bound(lens, j));
    SamePlace(marked, marked', cut, Bound(lens, j + 1));
  }

  /** Points dropped after the last cut, and before p, move nothing that was set. */
  lemma CursorKept(lens: seq<int>, intervals: seq<(int, int)>, c: Cursor, marked: seq<Point>, cut: int, p: int, marked': seq<Point>, cut': int, removed: int)
    requires CursorOk(lens, intervals, c, marked, cut, p) && SameUpTo(marked, marked', cut) && cut <= cut' < |marked|
    requires removed == |Kept(marked)| - |Kept(marked')|
    ensures CursorOk(lens, intervals, if c.finished then c else c.(removedInCurr := c.removedInCurr + removed), marked', cut', p)
  {
    IntervalsKept(lens, intervals, c.index, marked, cut, marked');
    SamePlace(marked, marked', cut, Bound(lens, c.index));
  }

  lemma IntervalsKept(lens: seq<int>, intervals: seq<(int, int)>, k: int, marked: seq<Point>, cut: int, marked': seq<Point>)
    requires CoversPoints(lens, |marked|) && Moved(lens, intervals, marked, k) && Bound(lens, k) <= cut && SameUpTo(marked, marked', cut)
    ensures Moved(lens, intervals, marked', k)
  {
    forall j | 0 <= j < |lens| ensures IntervalOk(lens, intervals, marked', k, j) {
      assert IntervalOk(lens, intervals, marked, k, j);
      if j < k {
        IntervalKept(lens, intervals[j], marked, j, k, cut, marked');
      }
    }
  }

  lemma SamePlace(marked: seq<Point>, marked': seq<Point>, cut: int, q: int)
    requires 0 <= q <= cut && SameUpTo(marked, marked', cut)
    ensures NewIndex(marked', q) == NewIndex(marked, q) && marked'[q] == marked[q]
  {
    assert marked'[..q] == marked'[..cut + 1][..q] && marked[..q] == marked[..cut + 1][..q];
    assert marked'[q] == marked'[..cut + 1][q] && marked[q] == marked[..cut + 1][q];
  }

  function NextCursor(c: Cursor, p: int, size: int, length: int): Cursor {
    var prev := c.removedInPrev + c.removedInCurr;
    if c.index + 1 >= size then Cursor(c.index + 1, p, c.end, true, 0, prev)
    else Cursor(c.index + 1, p, c.end + length, false, 0, prev)
  }

  /** An interval that ends at the cut p is set, and the next one starts there. */
  lemma CursorStep(lens: seq<int>, intervals: seq<(int, int)>, c: Cursor, marked: seq<Point>, p: int, length: int)
    requires CursorOk(lens, intervals, c, marked, p, p) && !c.finished && c.end == p
    requires forall i {:trigger marked[i]} :: p <= i < |marked| ==> marked[i].Point?
    requires c.index + 1 < |lens| ==> length == lens[c.index + 1]
    ensures CursorOk(lens, intervals[c.index := (c.start - c.removedInPrev, c.end - c.removedInPrev - c.removedInCurr)],
                     NextCursor(c, p, |lens|, length), marked, p, p)
  {
    var intervals' := intervals[c.index := (c.start - c.removedInPrev, c.end - c.removedInPrev - c.removedInCurr)];
    var c' := NextCursor(c, p, |lens|, length);
    RestKept(marked, p);
    BoundsAscend(lens, |marked|, c.index, c.index + 1);
    forall j | 0 <= j < |lens| ensures IntervalOk(lens, intervals', marked, c'.index, j) {
      assert IntervalOk(lens, intervals, marked, c.index, j);
    }
    if !c'.finished {
      BoundsAscend(lens, |marked|, c'.index, c'.index + 1);
    }
  }

  // ----- all partitions at one point

  function WithRemoved(c: Cursor, removed: int): Cursor {
    if c.finished then c else c.(removedInCurr := c.removedInCurr + removed)
  }

  /** A partition at point p; the first ones know of the points removed there, and are past p. */
  ghost predicate PartOk(all: seq<seq<int>>, now: seq<seq<(int, int)>>, cursors: seq<Cursor>, marked: seq<Point>, cut: int, p: int,
                         done: int, removed: int, s: int)
    requires 0 <= s < |all| == |now| == |cursors|
  {
    if s < done then CursorOk(all[s], now[s], cursors[s], marked, cut, p + 1)
    else CursorOk(all[s], now[s], WithRemoved(cursors[s], removed), marked, cut, p)
  }

  ghost predicate PartsOk(all: seq<seq<int>>, now: seq<seq<(int, int)>>, cursors: seq<Cursor>, marked: seq<Point>, cut: int, p: int,
                          done: int, removed: int)
  {
    && |all| == |now| == |cursors|
    && forall s :: 0 <= s < |all| ==> PartOk(all, now, cursors, marked, cut, p, done, removed, s)
  }

  ghost predicate EndsHere(cursors: seq<Cursor>, p: int, s: int)
    requires 0 <= s < |cursors|
  {
    !cursors[s].finished && cursors[s].end == p
  }

  /** An interval ends at p exactly if one that is current does. */
  lemma CutIsEnd(all: seq<seq<int>>, now: seq<seq<(int, int)>>, cursors: seq<Cursor>, marked: seq<Point>, p: nat)
    requires PartsOk(all, now, cursors, marked, LastCut(all, p), p, 0, 0)
    requires p == 0 ==> forall s :: 0 <= s < |cursors| ==> cursors[s].index == 0
    ensures IsCut(all, p) <==> exists s :: 0 <= s < |cursors| && EndsHere(cursors, p, s)
  {
    if s :| 0 <= s < |cursors| && EndsHere(cursors, p, s) {
      assert PartOk(all, now, cursors, marked, LastCut(all, p), p, 0, 0, s);
      assert EndsAt(all, s, cursors[s].index + 1, p);
    }
    if IsCut(all, p) {
      var s, j :| EndsAt(all, s, j, p);
      assert PartOk(all, now, cursors, marked, LastCut(all, p), p, 0, 0, s);
      EndIsNext(all[s], now[s], cursors[s], marked, LastCut(all, p), p, j);
      assert EndsHere(cursors, p, s);
    }
  }

  lemma EndIsNext(lens: seq<int>, intervals: seq<(int, int)>, c: Cursor, marked: seq<Point>, cut: int, p: int, j: int)
    requires CursorOk(lens, intervals, c, marked, cut, p) && 0 < j <= |lens| && Bound(lens, j) == p
    requires if p == 0 then c.index == 0 else cut < p
    ensures !c.finished && c.end == p
  {
    if j <= c.index {
      BoundsAscend(lens, |marked|, j, c.index);
    } else {
      BoundsAscend(lens, |marked|, c.index + 1, j);
    }
  }

  /** What is marked at the cut p is what was to be dropped between the cut before and p. */
  lemma MarkedAtCut(ps: seq<Point>, dist: Distance, limit: real, approx: bool, all: seq<seq<int>>, p: nat, marked: seq<Point>)
    requires p < |ps| && Present(ps, 0, |ps| - 1) && marked == Marked(ps, DroppedBefore(ps, dist, limit, approx, all, p))
    ensures Present(marked, LastCut(all, p), p)
    ensures var marked' := Marked(marked, RangeRdp(marked, dist, limit, approx, LastCut(all, p), p));
            && SameUpTo(marked, marked', LastCut(all, p))
            && (IsCut(all, p) ==> marked' == Marked(ps, DroppedBefore(ps, dist, limit, approx, all, p + 1)))
  {
    var cut := LastCut(all, p);
    var drop := RangeRdp(ps, dist, limit, approx, cut, p);
    RangeRdpLocal(ps, marked, dist, limit, approx, cut, p);
    MarkedTwice(ps, DroppedBefore(ps, dist, limit, approx, all, p), drop);
  }

  lemma NextCut(all: seq<seq<int>>, p: nat)
    ensures LastCut(all, p + 1) == if IsCut(all, p) then p else LastCut(all, p)
  {
  }

  lemma NotMarkedFrom(ps: seq<Point>, dist: Distance, limit: real, approx: bool, all: seq<seq<int>>, p: nat)
    requires p <= |ps| && Present(ps, 0, |ps| - 1)
    ensures var marked := Marked(ps, DroppedBefore(ps, dist, limit, approx, all, p));
            forall i {:trigger marked[i]} :: LastCut(all, p) <= i < |ps| ==> marked[i].Point?
  {
  }

  /** Marking points at p, or none, changes what the partitions know of by what is removed. */
  lemma PartsKept(all: seq<seq<int>>, now: seq<seq<(int, int)>>, cursors: seq<Cursor>, marked: seq<Point>, cut: int, p: int,
                  marked': seq<Point>, cut': int, removed: int)
    requires PartsOk(all, now, cursors, marked, cut, p, 0, 0) && SameUpTo(marked, marked', cut) && cut <= cut' < |marked|
    requires removed == |Kept(marked)| - |Kept(marked')|
    ensures PartsOk(all, now, cursors, marked', cut', p, 0, removed)
  {
    forall s | 0 <= s < |all| ensures PartOk(all, now, cursors, marked', cut', p, 0, removed, s) {
      assert PartOk(all, now, cursors, marked, cut, p, 0, 0, s);
      CursorKept(all[s], now[s], cursors[s], marked, cut, p, marked', cut', removed);
    }
  }

  lemma OnePartDone(all: seq<seq<int>>, now: seq<seq<(int, int)>>, cursors: seq<Cursor>, marked: seq<Point>, cut: int, p: int,
                    s: nat, removed: int, intervals: seq<(int, int)>, c: Cursor)
    requires PartsOk(all, now, cursors, marked, cut, p, s, removed) && s < |all|
    requires CursorOk(all[s], intervals, c, marked, cut, p + 1)
    ensures PartsOk(all, now[s := intervals], cursors[s := c], marked, cut, p, s + 1, removed)
  {
    var now', cursors', done := now[s := intervals], cursors[s := c], s + 1;
    forall i | 0 <= i < |all| ensures PartOk(all, now', cursors', marked, cut, p, done, removed, i) {
      assert PartOk(all, now, cursors, marked, cut, p, s, removed, i);
    }
  }

  lemma AllPartsDone(all: seq<seq<int>>, now: seq<seq<(int, int)>>, cursors: seq<Cursor>, marked: seq<Point>, cut: int, p: int, removed: int)
    requires PartsOk(all, now, cursors, marked, cut, p, |all|, removed)
    ensures PartsOk(all, now, cursors, marked, cut, p + 1, 0, 0)
  {
    var p' := p + 1;
    forall s | 0 <= s < |all| ensures PartOk(all, now, cursors, marked, cut, p', 0, 0, s) {
      assert PartOk(all, now, cursors, marked, cut, p, |all|, removed, s);
    }
  }

  /** Behind the last point every interval is set. */
  ghost predicate AllMoved(all: seq<seq<int>>, now: seq<seq<(int, int)>>, marked: seq<Point>) {
    |all| == |now| && forall s {:trigger all[s]} :: 0 <= s < |all| ==> CoversPoints(all[s], |marked|) && Moved(all[s], now[s], marked, |all[s]|)
  }

  lemma PartsFinished(all: seq<seq<int>>, now: seq<seq<(int, int)>>, cursors: seq<Cursor>, marked: seq<Point>, cut: int)
    requires PartsOk(all, now, cursors, marked, cut, |marked|, 0, 0)
    ensures AllMoved(all, now, marked)
  {
    forall s | 0 <= s < |all| ensures CoversPoints(all[s], |marked|) && Moved(all[s], now[s], marked, |all[s]|) {
      assert PartOk(all, now, cursors, marked, cut, |marked|, 0, 0, s);
    }
  }

  // ----- the simplification

  ghost predicate Separate(partitions: seq<Partition>) {
    forall i, j :: 0 <= i < j < |partitions| ==> partitions[i] != partitions[j]
  }

  ghost function IntervalsOf(partitions: seq<Partition>): (r: seq<seq<(int, int)>>)
    reads partitions
  {
    seq(|partitions|, s requires 0 <= s < |partitions| reads partitions => partitions[s].intervals)
  }

  /** Sets the intervals of a partition that end at p. */
  method SetEnding(partition: Partition, c0: Cursor, p: int, ghost lens: seq<int>, ghost marked: seq<Point>, ghost cut: int) returns (c: Cursor)
    requires CursorOk(lens, partition.intervals, c0, marked, cut, p)
    requires !c0.finished && c0.end == p ==> cut == p && forall i {:trigger marked[i]} :: p <= i < |marked| ==> marked[i].Point?
    modifies partition
    ensures CursorOk(lens, partition.intervals, c, marked, cut, p + 1)
  {
    c := c0;
    while !c.finished && p == c.end
      invariant CursorOk(lens, partition.intervals, c, marked, cut, p)
      invariant !c.finished && c.end == p ==> cut == p && forall i {:trigger marked[i]} :: p <= i < |marked| ==> marked[i].Point?
      decreases |lens| - c.index
    {
      var size := |partition.intervals|;
      var length := if c.index + 1 < size then partition.GetIntervalLength(c.index + 1) else 0;
      assert c.index + 1 < size ==> IntervalOk(lens, partition.intervals, marked, c.index, c.index + 1);
      CursorStep(lens, partition.intervals, c, marked, p, length);
      partition.SetInterval(c.index, c.start - c.removedInPrev, c.end - c.removedInPrev - c.removedInCurr);
      c := NextCursor(c, p, size, length);
    }
  }
  method AnyEnds(cursors: array<Cursor>, p: int) returns (found: bool)
    ensures found <==> exists s :: 0 <= s < cursors.Length && EndsHere(cursors[..], p, s)
  {
    var s := 0;
    while s < cursors.Length
      invariant 0 <= s <= cursors.Length
      invariant forall i :: 0 <= i < s ==> !EndsHere(cursors[..], p, i)
    {
      if !cursors[s].finished && p == cursors[s].end {
        assert EndsHere(cursors[..], p, s);
        return true;
      }
      s := s + 1;
    }
    found := false;
  }

  /** Tells all partitions of the points removed at p, and sets the intervals that end there. */
  method UpdatePartitions(partitions: seq<Partition>, cursors: array<Cursor>, p: nat, removed: int,
                          ghost all: seq<seq<int>>, ghost marked: seq<Point>, ghost cut: int)
    requires Separate(partitions) && PartsOk(all, IntervalsOf(partitions), cursors[..], marked, cut, p, 0, removed)
    requires IsCut(all, p) ==> cut == p && forall i {:trigger marked[i]} :: p <= i < |marked| ==> marked[i].Point?
    modifies partitions, cursors
    ensures PartsOk(all, IntervalsOf(partitions), cursors[..], marked, cut, p + 1, 0, 0)
  {
    var s := 0;
    while s < |partitions|
      invariant 0 <= s <= |partitions|
      invariant PartsOk(all, IntervalsOf(partitions), cursors[..], marked, cut, p, s, removed)
    {
      UpdatePartition(partitions, s, cursors, p, removed, all, marked, cut);
      s := s + 1;
    }
    AllPartsDone(all, IntervalsOf(partitions), cursors[..], marked, cut, p, removed);
  }

  method UpdatePartition(partitions: seq<Partition>, s: nat, cursors: array<Cursor>, p: nat, removed: int,
                         ghost all: seq<seq<int>>, ghost marked: seq<Point>, ghost cut: int)
    requires s < |partitions| && Separate(partitions) && PartsOk(all, IntervalsOf(partitions), cursors[..], marked, cut, p, s, removed)
    requires IsCut(all, p) ==> cut == p && forall i {:trigger marked[i]} :: p <= i < |marked| ==> marked[i].Point?
    modifies partitions[s], cursors
    ensures PartsOk(all, IntervalsOf(partitions), cursors[..], marked, cut, p, s + 1, removed)
  {
    ghost var now, before := IntervalsOf(partitions), cursors[..];
    assert PartOk(all, now, before, marked, cut, p, s, removed, s);
    var c := cursors[s];
    if !c.finished {
      c := WithRemoved(c, removed);
      if c.end == p {
        assert EndsAt(all, s, c.index + 1, p);
      }
      c := SetEnding(partitions[s], c, p, all[s], marked, cut);
      cursors[s] := c;
    }
    OnePartDone(all, now, before, marked, cut, p, s, removed, partitions[s].intervals, c);
    assert cursors[..] == before[s := c];
    assert IntervalsOf(partitions) == now[s := partitions[s].intervals];
  }

  /** Simplifies the points before p if an interval ends there. */
  method SimplifyAt(list: PointList, rdp: RamerDouglasPeucker, cursors: array<Cursor>, p: nat, intervalStart: int,
                    ghost all: seq<seq<int>>, ghost now: seq<seq<(int, int)>>, ghost ps: seq<Point>)
    returns (removed: int, intervalStart': int)
    requires rdp.Valid() && p < |ps| && Present(ps, 0, |ps| - 1) && intervalStart == LastCut(all, p)
    requires list.points == Marked(ps, DroppedBefore(ps, rdp.dist, rdp.limit, rdp.approx, all, p))
    requires PartsOk(all, now, cursors[..], list.points, intervalStart, p, 0, 0)
    requires p == 0 ==> forall s :: 0 <= s < cursors.Length ==> cursors[..][s].index == 0
    modifies list
    ensures intervalStart' == LastCut(all, p + 1) && (IsCut(all, p) ==> intervalStart' == p)
    ensures list.points == Marked(ps, DroppedBefore(ps, rdp.dist, rdp.limit, rdp.approx, all, p + 1))
    ensures PartsOk(all, now, cursors[..], list.points, intervalStart', p, 0, removed)
  {
    ghost var marked := list.points;
    removed, intervalStart' := 0, intervalStart;
    CutIsEnd(all, now, cursors[..], marked, p);
    MarkedAtCut(ps, rdp.dist, rdp.limit, rdp.approx, all, p, marked);
    NextCut(all, p);
    var ends := AnyEnds(cursors, p);
    if ends {
      removed := rdp.SimplifyRange(list, intervalStart, p, false);
      intervalStart' := p;
    }
    PartsKept(all, now, cursors[..], marked, intervalStart, p, list.points, intervalStart', removed);
  }

  method PassPoint(list: PointList, rdp: RamerDouglasPeucker, partitions: seq<Partition>, cursors: array<Cursor>, p: nat, intervalStart: int,
                   ghost all: seq<seq<int>>, ghost ps: seq<Point>)
    returns (intervalStart': int)
    requires rdp.Valid() && p < |ps| && Present(ps, 0, |ps| - 1) && intervalStart == LastCut(all, p) && Separate(partitions)
    requires list.points == Marked(ps, DroppedBefore(ps, rdp.dist, rdp.limit, rdp.approx, all, p))
    requires PartsOk(all, IntervalsOf(partitions), cursors[..], list.points, intervalStart, p, 0, 0)
    requires p == 0 ==> forall s :: 0 <= s < cursors.Length ==> cursors[..][s].index == 0
    modifies list, partitions, cursors
    ensures intervalStart' == LastCut(all, p + 1)
    ensures list.points == Marked(ps, DroppedBefore(ps, rdp.dist, rdp.limit, rdp.approx, all, p + 1))
    ensures PartsOk(all, IntervalsOf(partitions), cursors[..], list.points, intervalStart', p + 1, 0, 0)
  {
    ghost var now := IntervalsOf(partitions);
    var removed;
    removed, intervalStart' := SimplifyAt(list, rdp, cursors, p, intervalStart, all, now, ps);
    assert IntervalsOf(partitions) == now;
    NotMarkedFrom(ps, rdp.dist, rdp.limit, rdp.approx, all, p + 1);
    ghost var marked := list.points;
    UpdatePartitions(partitions, cursors, p, removed, all, marked, intervalStart');
    assert list.points == marked;
  }

  method StartCursors(partitions: seq<Partition>, ghost all: seq<seq<int>>, ghost ps: seq<Point>) returns (cursors: array<Cursor>)
    requires |ps| > 0 && Present(ps, 0, |ps| - 1) && |all| == |partitions|
    requires forall s {:trigger all[s]} :: 0 <= s < |all| ==> all[s] == Lengths(partitions[s].intervals) && CoversPoints(all[s], |ps|)
    ensures fresh(cursors) && PartsOk(all, IntervalsOf(partitions), cursors[..], ps, 0, 0, 0, 0)
    ensures forall s :: 0 <= s < cursors.Length ==> cursors[..][s].index == 0
  {
    cursors := new Cursor[|partitions|](_ => Cursor(0, 0, 0, false, 0, 0));
    var s := 0;
    while s < |partitions|
      invariant 0 <= s <= |partitions| == cursors.Length && forall i :: 0 <= i < cursors.Length ==> cursors[i].index == 0
      invariant forall i {:trigger all[i]} :: 0 <= i < s ==> cursors[i] == Cursor(0, 0, all[i][0], false, 0, 0)
    {
      assert all[s] == Lengths(partitions[s].intervals);
      cursors[s] := Cursor(0, 0, partitions[s].GetIntervalLength(0), false, 0, 0);
      s := s + 1;
    }
    ghost var now := IntervalsOf(partitions);
    forall s | 0 <= s < |all| ensures PartOk(all, now, cursors[..], ps, 0, 0, 0, 0, s) {
      CursorStarts(all[s], now[s], ps);
    }
  }

  /** Simplifies the points, within the intervals of all partitions if there are any. What is
      dropped is what the algorithm drops between interval ends that follow each other; every
      interval then leads from the point it started at to the point it ended at. The intervals
      of every partition add up to the points that are left. */
  method SimplifyPath(list: PointList, partitions: seq<Partition>, rdp: RamerDouglasPeucker, ghost all: seq<seq<int>>)
    returns (consistent: bool, ghost marked: seq<Point>)
    requires rdp.Valid() && Separate(partitions) && (list.points != [] ==> Present(list.points, 0, |list.points| - 1))
    requires |all| == |partitions|
    requires |list.points| > 2 ==>
               forall s {:trigger all[s]} :: 0 <= s < |all| ==> all[s] == Lengths(partitions[s].intervals) && CoversPoints(all[s], |list.points|)
    modifies list, partitions
    ensures consistent
    ensures |old(list.points)| <= 2 ==> list.points == old(list.points) && IntervalsOf(partitions) == old(IntervalsOf(partitions))
    ensures |old(list.points)| > 2 && partitions == [] ==>
              var ps := old(list.points);
              list.points == Kept(Marked(ps, RangeRdp(ps, rdp.dist, rdp.limit, rdp.approx, 0, |ps| - 1)))
    ensures |old(list.points)| > 2 && partitions != [] ==>
              var ps := old(list.points);
              && marked == Marked(ps, DroppedBefore(ps, rdp.dist, rdp.limit, rdp.approx, all, |ps|)) && list.points == Kept(marked)
              && AllMoved(all, IntervalsOf(partitions), marked)
  {
    ghost var ps := list.points;
    consistent, marked := true, ps;
    if |list.points| <= 2 {
      return;
    }
    if |partitions| == 0 {
      var removed := rdp.SimplifyRange(list, 0, |list.points| - 1, true);
      AllKept(ps);
      AllKept(Marked(ps, RangeRdp(ps, rdp.dist, rdp.limit, rdp.approx, 0, |ps| - 1)));
    } else {
      consistent, marked := SimplifyPartitions(list, partitions, rdp, all);
    }
  }

  method SimplifyPartitions(list: PointList, partitions: seq<Partition>, rdp: RamerDouglasPeucker, ghost all: seq<seq<int>>)
    returns (consistent: bool, ghost marked: seq<Point>)
    requires rdp.Valid() && Separate(partitions) && |list.points| > 0 && Present(list.points, 0, |list.points| - 1)
    requires |all| == |partitions|
    requires forall s {:trigger all[s]} :: 0 <= s < |all| ==> all[s] == Lengths(partitions[s].intervals) && CoversPoints(all[s], |list.points|)
    modifies list, partitions
    ensures var ps := old(list.points);
            marked == Marked(ps, DroppedBefore(ps, rdp.dist, rdp.limit, rdp.approx, all, |ps|)) && list.points == Kept(marked)
    ensures AllMoved(all, IntervalsOf(partitions), marked) && consistent
  {
    ghost var ps := list.points;
    var size := |list.points|;
    var cursors := StartCursors(partitions, all, ps);
    var intervalStart := 0;
    assert Marked(ps, {}) == ps;
    for p := 0 to size
      invariant size == |ps| && intervalStart == LastCut(all, p) && fresh(cursors)
      invariant list.points == Marked(ps, DroppedBefore(ps, rdp.dist, rdp.limit, rdp.approx, all, p))
      invariant PartsOk(all, IntervalsOf(partitions), cursors[..], list.points, intervalStart, p, 0, 0)
      invariant p == 0 ==> forall s :: 0 <= s < cursors.Length ==> cursors[..][s].index == 0
    {
      intervalStart := PassPoint(list, rdp, partitions, cursors, p, intervalStart, all, ps);
    }
    marked := list.points;
    ghost var now := IntervalsOf(partitions);
    PartsFinished(all, now, cursors[..], marked, intervalStart);
    RemoveNaN(list);
    assert IntervalsOf(partitions) == now;
    consistent := IntervalsConsistent(list, partitions, all, marked);
  }

  /** Whether the intervals of every partition add up to the points of the list. */
  method IntervalsConsistent(list: PointList, partitions: seq<Partition>, ghost all: seq<seq<int>>, ghost marked: seq<Point>) returns (r: bool)
    requires AllMoved(all, IntervalsOf(partitions), marked) && list.points == Kept(marked)
    ensures r
  {
    var s := 0;
    r := true;
    while s < |partitions|
      invariant 0 <= s <= |partitions| && r
    {
      var count, j := 0, 0;
      while j < |partitions[s].intervals|
        invariant 0 <= j <= |partitions[s].intervals| && count == Bound(Lengths(partitions[s].intervals), j)
      {
        count := count + partitions[s].GetIntervalLength(j);
        j := j + 1;
      }
      IntervalsAddUp(all[s], IntervalsOf(partitions)[s], marked);
      r := r && count == |list.points| - 1;
      s := s + 1;
    }
  }

  lemma {:induction false} IntervalsUpTo(lens: seq<int>, intervals: seq<(int, int)>, marked: seq<Point>, k: int)
    requires CoversPoints(lens, |marked|) && Moved(lens, intervals, marked, |lens|) && 0 <= k <= |lens|
    ensures 0 <= Bound(lens, k) < |marked| && Bound(Lengths(intervals), k) == NewIndex(marked, Bound(lens, k))
  {
    BoundsAscend(lens, |marked|, 0, k);
    if k > 0 {
      IntervalsUpTo(lens, intervals, marked, k - 1);
      assert IntervalOk(lens, intervals, marked, |lens|, k - 1);
    } else {
      assert marked[..0] == [];
    }
  }

  lemma IntervalsAddUp(lens: seq<int>, intervals: seq<(int, int)>, marked: seq<Point>)
    requires CoversPoints(lens, |marked|) && Moved(lens, intervals, marked, |lens|)
    ensures Bound(Lengths(intervals), |intervals|) == |Kept(marked)| - 1
  {
    var n := |lens|;
    IntervalsUpTo(lens, intervals, marked, n);
    assert IntervalOk(lens, intervals, marked, n, n - 1);
    RestKept(marked, |marked| - 1);
  }

  // ----- what this means for the points

  /** The intervals of a partition follow each other from the first to the last point that is
      left, and lead between the same points as before. */
  lemma IntervalsAreKept(lens: seq<int>, intervals: seq<(int, int)>, ps: seq<Point>, drop: set<int>, j: int)
    requires CoversPoints(lens, |ps|) && Moved(lens, intervals, Marked(ps, drop), |lens|) && 0 <= j < |lens|
    ensures var r, (start, end) := Kept(Marked(ps, drop)), intervals[j];
            && 0 <= start <= end < |r|
            && 0 <= Bound(lens, j) <= Bound(lens, j + 1) < |ps|
            && r[start] == ps[Bound(lens, j)] && r[end] == ps[Bound(lens, j + 1)]
            && (j == 0 ==> start == 0) && (j > 0 ==> intervals[j - 1].1 == start) && (j == |lens| - 1 ==> end == |r| - 1)
  {
    var marked := Marked(ps, drop);
    assert IntervalOk(lens, intervals, marked, |lens|, j);
    IntervalsUpTo(lens, intervals, marked, j);
    IntervalsUpTo(lens, intervals, marked, j + 1);
    KeptAt(marked, Bound(lens, j));
    KeptAt(marked, Bound(lens, j + 1));
    LengthsNonNegative(marked, Bound(lens, j), Bound(lens, j + 1));
    if j > 0 {
      assert IntervalOk(lens, intervals, marked, |lens|, j - 1);
    }
    if j == |lens| - 1 {
      IntervalsAddUp(lens, intervals, marked);
    }
  }

  lemma {:induction false} LengthsNonNegative(marked: seq<Point>, i: int, j: int)
    requires 0 <= i <= j <= |marked|
    ensures NewIndex(marked, i) <= NewIndex(marked, j)
    decreases j
  {
    if i < j {
      assert marked[..j][..j - 1] == marked[..j - 1];
      LengthsNonNegative(marked, i, j - 1);
    }
  }

  /** Every dropped point is near the chord of the two points left next to it. */
  lemma {:induction false} DroppedAreNear(ps: seq<Point>, dist: Distance, limit: real, approx: bool, all: seq<seq<int>>, p: nat, i: int)
    returns (a: int, b: int)
    requires p <= |ps| && i in DroppedBefore(ps, dist, limit, approx, all, p)
    ensures Near(ps, dist, limit, DroppedBefore(ps, dist, limit, approx, all, p), i, a, b) && b <= LastCut(all, p)
  {
    var q := p - 1;
    if i in DroppedBefore(ps, dist, limit, approx, all, q) {
      a, b := DroppedAreNear(ps, dist, limit, approx, all, q, i);
    } else {
      a, b := DroppedNearInRange(ps, dist, limit, approx, LastCut(all, q), q, i);
    }
  }

  lemma {:induction false} LastCutIsCut(all: seq<seq<int>>, p: nat)
    requires LastCut(all, p) > 0
    ensures IsCut(all, LastCut(all, p))
  {
    if !IsCut(all, p - 1) {
      LastCutIsCut(all, p - 1);
    }
  }

  lemma {:induction false} SameLastCut(all: seq<seq<int>>, p: nat, i: nat)
    requires LastCut(all, p) < i <= p
    ensures LastCut(all, i) == LastCut(all, p)
  {
    if i < p {
      SameLastCut(all, p - 1, i);
    }
  }

  /** Every point that is left is an interval end, a segment end between two of these, or far from
      the chord of two others that are left between the same interval ends. */
  lemma {:induction false} LeftAreFar(ps: seq<Point>, dist: Distance, limit: real, approx: bool, all: seq<seq<int>>, p: nat, i: nat)
    returns (a: int, b: int)
    requires p <= |ps| && 0 < i < LastCut(all, p) && i !in DroppedBefore(ps, dist, limit, approx, all, p)
    requires !IsCut(all, i) && !IsSegmentEnd(approx, LastCut(all, i), i)
    ensures LastCut(all, i) <= a && b <= LastCut(all, p)
    ensures IsFar(ps, dist, limit, DroppedBefore(ps, dist, limit, approx, all, p), i, a, b)
  {
    var q := p - 1;
    var cut := LastCut(all, q);
    if IsCut(all, q) && i >= cut {
      if cut > 0 {
        LastCutIsCut(all, q);
      }
      SameLastCut(all, q, i);
      a, b := LeftIsFarInRange(ps, dist, limit, approx, cut, q, i);
    } else {
      a, b := LeftAreFar(ps, dist, limit, approx, all, q, i);
    }
  }
}
