/** Whole numbers in a few bytes, in two's complement with the lowest byte first. */
module ByteCodecs {
  import opened Counting

  type Bytes = seq<int>

  function Pow256(n: nat): (r: nat)
    ensures r >= 1
  {
    if n == 0 then 1 else 256 * Pow256(n - 1)
  }

  /** The n lowest bytes of a value. */
  function FromLong(value: int, n: nat): (b: Bytes)
    ensures |b| == n && forall i :: 0 <= i < n ==> 0 <= b[i] < 256
  {
    seq(n, i requires 0 <= i < n => (value / Pow256(i)) % 256)
  }

  method FromLongInto(value: int, n: nat) returns (bytes: Bytes)
    ensures bytes == FromLong(value, n)
  {
    bytes := [];
    var i := 0;
    while i < n
      invariant 0 <= i <= n && bytes == FromLong(value, i)
    {
      bytes := bytes + [(value / Pow256(i)) % 256];
      i := i + 1;
    }
  }

  ghost function Unsigned(b: Bytes): int {
    if b == [] then 0 else Unsigned(b[..|b| - 1]) + b[|b| - 1] * Pow256(|b| - 1)
  }

  /** The number that the bytes stand for: the topmost bit is its sign. */
  ghost function Signed(b: Bytes): int
    requires b != []
  {
    if b[|b| - 1] >= 128 then Unsigned(b) - Pow256(|b|) else Unsigned(b)
  }

  /** The bytes from i upwards. */
  ghost function UnsignedFrom(b: Bytes, i: nat): int
    requires i <= |b|
    decreases |b| - i
  {
    if i == |b| then 0 else b[i] * Pow256(i) + UnsignedFrom(b, i + 1)
  }

  lemma {:induction false} UnsignedSplit(b: Bytes, i: nat)
    requires i <= |b|
    ensures Unsigned(b) == Unsigned(b[..i]) + UnsignedFrom(b, i)
    decreases |b| - i
  {
    if i == |b| {
      assert b[..i] == b;
    } else {
      var j := i + 1;
      UnsignedSplit(b, j);
      assert b[..j][..i] == b[..i] && b[..j][i] == b[i];
    }
  }

  /** The topmost byte is extended by its sign, the lower ones by zeros. */
  method ToLong(b: Bytes) returns (res: int)
    requires b != [] && forall i :: 0 <= i < |b| ==> 0 <= b[i] < 256
    ensures res == Signed(b)
  {
    var n := |b|;
    var top := if b[n - 1] >= 128 then b[n - 1] - 256 else b[n - 1];
    res := top * Pow256(n - 1);
    ghost var sign := if b[n - 1] >= 128 then Pow256(n) else 0;
    assert res == UnsignedFrom(b, n - 1) - sign;
    var i := n - 1;
    while i > 0
      invariant 0 <= i <= n - 1 && res == UnsignedFrom(b, i) - sign
    {
      i := i - 1;
      // the bits are disjoint, so this is the same as setting them
      res := res + b[i] * Pow256(i);
    }
    UnsignedSplit(b, 0);
  }

  /** The values of n bytes. */
  ghost predicate Fits(value: int, n: nat) {
    0 <= 2 * value + Pow256(n) < 2 * Pow256(n)
  }

  lemma Distribute(h: int, l: int, a: int)
    ensures (256 * h + l) * a == h * (256 * a) + l * a
  {
  }

  lemma DivideTwice(v: int, a: nat)
    requires a > 0
    ensures v / (256 * a) == v / a / 256
  {
    var q, r := v / a, v % a;
    DivMod(v, a);
    var h, l := q / 256, q % 256;
    Distribute(h, l, a);
    AtMost(l, 255, a);
    QuotientIs(v, 256 * a, h, l * a + r);
  }

  lemma OneByteMore(value: int, p: nat, u: int)
    requires p > 0 && 0 <= u < p && value == (value / p) * p + u
    ensures 0 <= u + (value / p % 256) * p < 256 * p
    ensures value == (value / (256 * p)) * (256 * p) + (u + (value / p % 256) * p)
  {
    var q := value / p;
    DivideTwice(value, p);
    Distribute(q / 256, q % 256, p);
    AtMost(q % 256, 255, p);
  }

  lemma AtMost(a: int, b: int, p: nat)
    requires 0 <= a <= b
    ensures 0 <= a * p <= b * p
  {
  }

  /** The bytes of a value are its remainder. */
  lemma {:induction false} UnsignedIsRemainder(value: int, n: nat)
    ensures 0 <= Unsigned(FromLong(value, n)) < Pow256(n)
    ensures value == (value / Pow256(n)) * Pow256(n) + Unsigned(FromLong(value, n))
  {
    if n > 0 {
      var m := n - 1;
      UnsignedIsRemainder(value, m);
      assert FromLong(value, n)[..m] == FromLong(value, m);
      OneByteMore(value, Pow256(m), Unsigned(FromLong(value, m)));
    }
  }

  lemma HalfByTop(top: int, p: nat, u: int)
    requires p > 0 && 0 <= u < p && 0 <= top < 256
    ensures top >= 128 <==> 2 * (u + top * p) >= 256 * p
  {
    if top >= 128 {
      AtMost(128, top, p);
    } else {
      AtMost(top, 127, p);
    }
  }

  /** The topmost byte tells the half of the range. */
  lemma TopByte(b: Bytes)
    requires b != [] && 0 <= b[|b| - 1] < 256 && 0 <= Unsigned(b[..|b| - 1]) < Pow256(|b| - 1)
    ensures b[|b| - 1] >= 128 <==> 2 * Unsigned(b) >= Pow256(|b|)
  {
    HalfByTop(b[|b| - 1], Pow256(|b| - 1), Unsigned(b[..|b| - 1]));
  }

  lemma TopByteOf(value: int, n: nat)
    requires n > 0
    ensures FromLong(value, n)[n - 1] >= 128 <==> 2 * Unsigned(FromLong(value, n)) >= Pow256(n)
  {
    var b := FromLong(value, n);
    UnsignedIsRemainder(value, n - 1);
    assert b[..n - 1] == FromLong(value, n - 1);
    TopByte(b);
  }

  /** A remainder tells the value if the value is small. */
  lemma SmallQuotient(value: int, p: nat, u: int, q: int)
    requires p > 0 && 0 <= u < p && value == q * p + u && 0 <= 2 * value + p < 2 * p
    ensures q == if 2 * u >= p then -1 else 0
  {
    Cancel(q, 1, p);
    Cancel(-2, q, p);
  }

  /** A value is read back from its bytes exactly when it fits them. */
  lemma RoundTrip(value: int, n: nat)
    requires n > 0
    ensures Signed(FromLong(value, n)) == value <==> Fits(value, n)
  {
    var p, u, q := Pow256(n), Unsigned(FromLong(value, n)), value / Pow256(n);
    UnsignedIsRemainder(value, n);
    TopByteOf(value, n);
    if Fits(value, n) {
      SmallQuotient(value, p, u, q);
    }
  }
}
