/** The index of a grid cell along the Hilbert curve. */
module Hilbert {
  import opened Counting

  lemma {:induction false} Pow4Square(k: nat)
    ensures Pow4(k) == Pow2(k) * Pow2(k)
  {
    if k > 0 {
      var p := Pow2(k - 1);
      Pow4Square(k - 1);
      assert (2 * p) * (2 * p) == 4 * (p * p);
    }
  }

  /** The quadrants in the order the curve passes through them. */
  function Quadrant(rx: bool, ry: bool): nat {
    if !rx && !ry then 0 else if !rx then 1 else if ry then 2 else 3
  }

  /** The indices before a quadrant of n cells. */
  function Before(q: int, n: nat): int {
    if q == 0 then 0 else if q == 1 then n else if q == 2 then 2 * n else 3 * n
  }

  /** The quadrant an index belongs to. */
  function QuadrantAt(d: int, n: nat): int {
    if d < n then 0 else if d < 2 * n then 1 else if d < 3 * n then 2 else 3
  }

  ghost predicate InGrid(k: nat, x: int, y: int) {
    0 <= x < Pow2(k) && 0 <= y < Pow2(k)
  }

  /** The place of a cell within its quadrant, in a curve of half the size that is turned so that
      the pieces join. */
  function Inner(s: nat, x: int, y: int): (int, int)
    requires s > 0
  {
    if y >= s then (x % s, y % s) else if x >= s then (s - 1 - y % s, s - 1 - x % s) else (y % s, x % s)
  }

  /** The cell at a place within a quadrant. */
  function Outer(s: nat, q: int, c: (int, int)): (int, int) {
    match q
    case 0 => (c.1, c.0)
    case 1 => (c.0, c.1 + s)
    case 2 => (c.0 + s, c.1 + s)
    case _ => (2 * s - 1 - c.1, s - 1 - c.0)
  }

  /** The index of a cell: that of its quadrant, and of its place there. */
  ghost function Index(k: nat, x: int, y: int): int
    requires InGrid(k, x, y)
  {
    if k == 0 then 0 else
    var s := Pow2(k - 1);
    var c := Inner(s, x, y);
    Before(Quadrant(x >= s, y >= s), Pow4(k - 1)) + Index(k - 1, c.0, c.1)
  }

  /** The cell with the given index. */
  function Cell(k: nat, d: int): (c: (int, int))
    requires 0 <= d < Pow4(k)
    ensures InGrid(k, c.0, c.1)
  {
    if k == 0 then (0, 0) else
    var n := Pow4(k - 1);
    var q := QuadrantAt(d, n);
    Outer(Pow2(k - 1), q, Cell(k - 1, d - Before(q, n)))
  }

  lemma Lower(x: int, s: nat)
    requires s > 0 && 0 <= x < 2 * s
    ensures x % s == if x >= s then x - s else x
  {
    QuotientIs(x, s, if x >= s then 1 else 0, if x >= s then x - s else x);
  }

  lemma OuterInner(s: nat, x: int, y: int)
    requires s > 0 && 0 <= x < 2 * s && 0 <= y < 2 * s
    ensures Outer(s, Quadrant(x >= s, y >= s), Inner(s, x, y)) == (x, y)
  {
    Lower(x, s);
    Lower(y, s);
  }

  lemma InnerOuter(s: nat, q: int, u: int, v: int)
    requires s > 0 && 0 <= u < s && 0 <= v < s && 0 <= q < 4
    ensures var c := Outer(s, q, (u, v)); Inner(s, c.0, c.1) == (u, v) && Quadrant(c.0 >= s, c.1 >= s) == q
  {
    var c := Outer(s, q, (u, v));
    Lower(c.0, s);
    Lower(c.1, s);
  }

  /** Indices are within the number of cells, and lead back to their cells. */
  lemma {:induction false} CellOfIndex(k: nat, x: int, y: int)
    requires InGrid(k, x, y)
    ensures 0 <= Index(k, x, y) < Pow4(k) && Cell(k, Index(k, x, y)) == (x, y)
  {
    if k > 0 {
      var s, n := Pow2(k - 1), Pow4(k - 1);
      var q, c := Quadrant(x >= s, y >= s), Inner(s, x, y);
      OuterInner(s, x, y);
      CellOfIndex(k - 1, c.0, c.1);
      CellAt(k, Index(k, x, y));
      InQuadrant(q, Index(k - 1, c.0, c.1), n);
    }
  }

  lemma InQuadrant(q: int, r: int, n: nat)
    requires 0 <= q < 4 && 0 <= r < n
    ensures 0 <= Before(q, n) + r < 4 * n && QuadrantAt(Before(q, n) + r, n) == q
  {
  }

  lemma CellAt(k: nat, d: int)
    requires k > 0 && 0 <= d < Pow4(k)
    ensures var n := Pow4(k - 1);
            var q := QuadrantAt(d, n);
            && 0 <= q < 4 && 0 <= d - Before(q, n) < n
            && Cell(k, d) == Outer(Pow2(k - 1), q, Cell(k - 1, d - Before(q, n)))
  {
  }

  /** And every index within the number of cells is that of a cell: the index is a bijection. */
  lemma {:induction false} IndexOfCell(k: nat, d: int)
    requires 0 <= d < Pow4(k)
    ensures Index(k, Cell(k, d).0, Cell(k, d).1) == d
  {
    if k > 0 {
      var n := Pow4(k - 1);
      var q := QuadrantAt(d, n);
      var c := Cell(k - 1, d - Before(q, n));
      IndexOfCell(k - 1, d - Before(q, n));
      CellAt(k, d);
      IndexOfOuter(k, q, c);
    }
  }

  lemma IndexOfOuter(k: nat, q: int, c: (int, int))
    requires k > 0 && 0 <= q < 4 && InGrid(k - 1, c.0, c.1)
    ensures var cell := Outer(Pow2(k - 1), q, c);
            InGrid(k, cell.0, cell.1) && Index(k, cell.0, cell.1) == Before(q, Pow4(k - 1)) + Index(k - 1, c.0, c.1)
  {
    InnerOuter(Pow2(k - 1), q, c.0, c.1);
  }

  lemma IndexInjective(k: nat, x: int, y: int, x': int, y': int)
    requires InGrid(k, x, y) && InGrid(k, x', y') && Index(k, x, y) == Index(k, x', y')
    ensures x == x' && y == y'
  {
    CellOfIndex(k, x, y);
    CellOfIndex(k, x', y');
  }

  // ----- the curve is connected

  predicate Neighbours(a: (int, int), b: (int, int)) {
    (a.0 == b.0 && (a.1 == b.1 + 1 || b.1 == a.1 + 1)) || (a.1 == b.1 && (a.0 == b.0 + 1 || b.0 == a.0 + 1))
  }

  /** The curve leads from one corner of the grid along its lower side to the other. */
  lemma {:induction false} Ends(k: nat)
    ensures Pow4(k) >= 1 && Cell(k, 0) == (0, 0) && Cell(k, Pow4(k) - 1) == (Pow2(k) - 1, 0)
  {
    if k > 0 {
      Ends(k - 1);
    }
  }

  /** Turning a quadrant keeps neighbours together, and the pieces join. */
  lemma OuterNeighbours(s: nat, q: int, a: (int, int), b: (int, int))
    requires Neighbours(a, b)
    ensures Neighbours(Outer(s, q, a), Outer(s, q, b))
  {
  }

  lemma QuadrantsJoin(s: nat, q: int)
    requires 0 <= q < 3
    ensures Neighbours(Outer(s, q, (s - 1, 0)), Outer(s, q + 1, (0, 0)))
  {
  }

  /** Cells with consecutive indices are next to each other. */
  lemma {:induction false} Consecutive(k: nat, d: int)
    requires 0 <= d && d + 1 < Pow4(k)
    ensures Neighbours(Cell(k, d), Cell(k, d + 1))
  {
    if k > 0 {
      var n := Pow4(k - 1);
      var q := QuadrantAt(d, n);
      var r := d - Before(q, n);
      if r + 1 < n {
        Consecutive(k - 1, r);
        var a, b := WithinQuadrant(k, q, r);
      } else {
        BetweenQuadrants(k, q);
      }
    }
  }

  lemma CellInQuadrant(k: nat, q: int, r: int) returns (cell: (int, int))
    requires k > 0 && 0 <= q < 4 && 0 <= r < Pow4(k - 1)
    ensures 0 <= Before(q, Pow4(k - 1)) + r < Pow4(k)
    ensures cell == Cell(k, Before(q, Pow4(k - 1)) + r) == Outer(Pow2(k - 1), q, Cell(k - 1, r))
  {
    InQuadrant(q, r, Pow4(k - 1));
    CellAt(k, Before(q, Pow4(k - 1)) + r);
    cell := Cell(k, Before(q, Pow4(k - 1)) + r);
  }

  lemma WithinQuadrant(k: nat, q: int, r: int) returns (a: (int, int), b: (int, int))
    requires k > 0 && 0 <= q < 4 && 0 <= r && r + 1 < Pow4(k - 1) && Neighbours(Cell(k - 1, r), Cell(k - 1, r + 1))
    ensures var d := Before(q, Pow4(k - 1)) + r; 0 <= d && d + 1 < Pow4(k) && a == Cell(k, d) && b == Cell(k, d + 1)
    ensures Neighbours(a, b)
  {
    OuterNeighbours(Pow2(k - 1), q, Cell(k - 1, r), Cell(k - 1, r + 1));
    a := CellInQuadrant(k, q, r);
    b := CellInQuadrant(k, q, r + 1);
  }

  lemma PiecesJoin(k: nat, q: int)
    requires k > 0 && 0 <= q < 3
    ensures Neighbours(Outer(Pow2(k - 1), q, Cell(k - 1, Pow4(k - 1) - 1)), Outer(Pow2(k - 1), q + 1, Cell(k - 1, 0)))
  {
    Ends(k - 1);
    QuadrantsJoin(Pow2(k - 1), q);
  }

  lemma BetweenQuadrants(k: nat, q: int)
    requires k > 0 && 0 <= q < 3
    ensures var d := Before(q, Pow4(k - 1)) + Pow4(k - 1) - 1; 0 <= d && d + 1 < Pow4(k) && Neighbours(Cell(k, d), Cell(k, d + 1))
  {
    PiecesJoin(k, q);
    var a := CellInQuadrant(k, q, Pow4(k - 1) - 1);
    var b := CellInQuadrant(k, q + 1, 0);
  }

  // ----- the loop

  /** Whether x has the bit of weight s, in two's complement. */
  predicate HasBit(x: int, s: nat)
    requires s > 0
  {
    (x / s) % 2 == 1
  }

  /** Only the bits below the weight 2 s matter for what remains of the curve. */
  ghost function Rest(k: nat, x: int, y: int): int {
    ModInRange(x, Pow2(k));
    ModInRange(y, Pow2(k));
    Index(k, x % Pow2(k), y % Pow2(k))
  }

  lemma ModInRange(x: int, n: nat)
    requires n > 0
    ensures 0 <= x % n < n
  {
  }

  /** The bit of weight s tells the half, whatever the bits above it. */
  lemma BitIsHalf(x: int, s: nat)
    requires s > 0
    ensures HasBit(x, s) <==> x % (2 * s) >= s
    ensures x % (2 * s) % s == x % s && x % (2 * s) == (if HasBit(x, s) then s else 0) + x % s
  {
    var q, r := x / s, x % s;
    assert x == q * s + r;
    var h, b := q / 2, q % 2;
    assert q == 2 * h + b;
    assert x == h * (2 * s) + (b * s + r) by {
      assert (2 * h + b) * s == h * (2 * s) + b * s;
    }
    assert b == 0 || b == 1;
    QuotientIs(x, 2 * s, h, if b == 1 then s + r else r);
    QuotientIs(b * s + r, s, b, r);
  }

  /** Reflecting x flips the bits below s, although it leaves arbitrary bits above. */
  lemma Reflected(x: int, s: nat)
    requires s > 0
    ensures (s - 1 - x) % s == s - 1 - x % s
  {
    var q, r := x / s, x % s;
    assert x == q * s + r;
    assert s - 1 - x == (-q) * s + (s - 1 - r);
    QuotientIs(s - 1 - x, s, -q, s - 1 - r);
  }

  /** What remains is the quadrant told by the bits, and the rest of the bits. */
  lemma RestHalves(k: nat, x: int, y: int)
    requires k > 0
    ensures var s := Pow2(k - 1);
            var u, v := x % s, y % s;
            var c := if HasBit(y, s) then (u, v) else if HasBit(x, s) then (s - 1 - v, s - 1 - u) else (v, u);
            && InGrid(k - 1, c.0, c.1)
            && Rest(k, x, y) == Before(Quadrant(HasBit(x, s), HasBit(y, s)), Pow4(k - 1)) + Index(k - 1, c.0, c.1)
  {
    var s := Pow2(k - 1);
    BitIsHalf(x, s);
    BitIsHalf(y, s);
    ModInRange(x, s);
    ModInRange(y, s);
    ModInRange(x, 2 * s);
    ModInRange(y, 2 * s);
  }

  /** One round of the loop settles one quadrant. */
  lemma RestStep(k: nat, x: int, y: int)
    requires k > 0
    ensures var s := Pow2(k - 1);
            var rx, ry := HasBit(x, s), HasBit(y, s);
            Rest(k, x, y) == Before(Quadrant(rx, ry), Pow4(k - 1))
              + (if ry then Rest(k - 1, x, y) else if rx then Rest(k - 1, s - 1 - y, s - 1 - x) else Rest(k - 1, y, x))
  {
    var s := Pow2(k - 1);
    RestHalves(k, x, y);
    if !HasBit(y, s) && HasBit(x, s) {
      Reflected(x, s);
      Reflected(y, s);
    }
  }

  lemma BeforeIsProduct(n: nat, q: int)
    requires 0 <= q < 4
    ensures n * q == Before(q, n)
  {
    assert q == 0 || q == 1 || q == 2 || q == 3;
  }

  /** The weight of the bit to look at in the round that k rounds remain. */
  ghost function BitWeight(k: nat): nat {
    if k == 0 then 0 else Pow2(k - 1)
  }

  lemma HalfWeight(k: nat)
    requires k > 0
    ensures BitWeight(k) / 2 == BitWeight(k - 1)
  {
  }

  /** The index of a cell in a grid of 2^order by 2^order cells. */
  method XY2D(order: nat, x0: int, y0: int) returns (d: int)
    requires order >= 1 && InGrid(order, x0, y0)
    ensures d == Index(order, x0, y0)
  {
    var x, y := x0, y0;
    d := 0;
    var s := Pow2(order - 1);
    ghost var k := order;
    Unreduced(x0, Pow2(order));
    Unreduced(y0, Pow2(order));
    while s > 0
      invariant s == BitWeight(k)
      invariant d + Rest(k, x, y) == Index(order, x0, y0)
      decreases s
    {
      x, y, d := Round(s, x, y, d, k);
      HalfWeight(k);
      s := s / 2;
      k := k - 1;
    }
  }

  lemma Unreduced(x: int, n: nat)
    requires 0 <= x < n
    ensures x % n == x
  {
  }

  /** The quadrant of the cell at weight s, and the turn that it takes. */
  method Round(s: nat, x: int, y: int, d: int, ghost k: nat) returns (x': int, y': int, d': int)
    requires k > 0 && s == Pow2(k - 1)
    ensures d' + Rest(k - 1, x', y') == d + Rest(k, x, y)
  {
    RestStep(k, x, y);
    Pow4Square(k - 1);
    var rx, ry := HasBit(x, s), HasBit(y, s);
    BeforeIsProduct(s * s, Quadrant(rx, ry));
    d' := d + s * s * Quadrant(rx, ry);
    x', y' := x, y;
    if !ry {
      if rx {
        x', y' := s - 1 - x', s - 1 - y';
      }
      x', y' := y', x';
    }
  }

  function Clamp(v: int, lo: int, hi: int): (r: int)
    requires lo <= hi
    ensures lo <= r <= hi && (lo <= v <= hi ==> r == v)
  {
    var m := if v <= hi then v else hi;
    if m >= lo then m else lo
  }

  /** Rounds towards zero. */
  function Truncated(r: real): int {
    if r >= 0.0 then r.Floor else -(-r).Floor
  }

  /** The grid cell of a coordinate; those off the map belong to the cells along its border. */
  function CellOfLatLon(lat: real, lon: real, order: nat): (int, int) {
    (StepAt(lon + 180.0, 360.0, Pow2(order)), StepAt(90.0 - lat, 180.0, Pow2(order)))
  }

  function StepAt(value: real, width: real, steps: nat): int
    requires width > 0.0 && steps > 0
  {
    Clamp(Truncated(value / width * steps as real), 0, steps - 1)
  }

  /** The value is within step r of a row of steps of this width that starts at zero; the first and
      the last step go on without end. */
  ghost predicate InStep(value: real, width: real, steps: nat, r: int) {
    && 0 <= r < steps && (r > 0 ==> r as real * width <= value * steps as real)
    && (r < steps - 1 ==> value * steps as real < (r + 1) as real * width)
  }

  /** The position is in the cell: in its column from the west, and in its row from the north. */
  ghost predicate InCell(lat: real, lon: real, order: nat, c: (int, int)) {
    InStep(lon + 180.0, 360.0, Pow2(order), c.0) && InStep(90.0 - lat, 180.0, Pow2(order), c.1)
  }

  lemma StepOf(value: real, width: real, steps: nat, r: int)
    requires width > 0.0 && steps > 0
    ensures InStep(value, width, steps, r) <==> r == StepAt(value, width, steps)
  {
    var v := value / width * steps as real;
    assert value / width * width == value;
    assert v * width == value * steps as real;
    StepScaled(v, width, value * steps as real, r);
    StepScaled(v, width, value * steps as real, r + 1);
  }

  lemma StepScaled(v: real, width: real, scaled: real, r: int)
    requires width > 0.0 && v * width == scaled
    ensures r as real * width <= scaled <==> r as real <= v
  {
  }

  /** Every position is in exactly one cell, the one that is computed. */
  lemma OneCell(lat: real, lon: real, order: nat, c: (int, int))
    ensures InCell(lat, lon, order, c) <==> c == CellOfLatLon(lat, lon, order)
  {
    StepsOf(lon + 180.0, 90.0 - lat, Pow2(order), c);
  }

  lemma StepsOf(east: real, south: real, steps: nat, c: (int, int))
    requires steps > 0
    ensures InStep(east, 360.0, steps, c.0) && InStep(south, 180.0, steps, c.1) <==> c == (StepAt(east, 360.0, steps), StepAt(south, 180.0, steps))
  {
    StepOf(east, 360.0, steps, c.0);
    StepOf(south, 180.0, steps, c.1);
  }

  method LatLonToHilbertIndex(lat: real, lon: real, order: nat) returns (d: int)
    requires order >= 1
    ensures 0 <= d < Pow4(order) && InCell(lat, lon, order, Cell(order, d))
  {
    var c := CellOfLatLon(lat, lon, order);
    d := XY2D(order, c.0, c.1);
    CellOfIndex(order, c.0, c.1);
    OneCell(lat, lon, order, c);
  }
}
