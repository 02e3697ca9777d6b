/** Spatial keys: the bits of two coordinates interleaved, and the steps to neighbouring cells. */
module SpatialKeys {

  const EVEN: bv64 := 0x5555_5555_5555_5555
  const ODD: bv64 := 0xAAAA_AAAA_AAAA_AAAA

  /** The lower 32 bits of n at the even places. */
  function Spread(n: bv64): bv64 {
    var a := (n | (n << 16)) & 0x0000_FFFF_0000_FFFF;
    var b := (a | (a << 8)) & 0x00FF_00FF_00FF_00FF;
    var c := (b | (b << 4)) & 0x0F0F_0F0F_0F0F_0F0F;
    var d := (c | (c << 2)) & 0x3333_3333_3333_3333;
    (d | (d << 1)) & EVEN
  }

  /** The bits at the even places, put together. */
  function Compact(z: bv64): bv64 {
    var a := z & EVEN;
    var b := (a | (a >> 1)) & 0x3333_3333_3333_3333;
    var c := (b | (b >> 2)) & 0x0F0F_0F0F_0F0F_0F0F;
    var d := (c | (c >> 4)) & 0x00FF_00FF_00FF_00FF;
    var e := (d | (d >> 8)) & 0x0000_FFFF_0000_FFFF;
    (e | (e >> 16)) & 0xFFFF_FFFF
  }

  /** The key of a cell. */
  function Key(x: bv64, y: bv64): bv64 {
    Spread(x) | (Spread(y) << 1)
  }

  lemma CellOfKey(x: bv64, y: bv64)
    requires x <= 0xFFFF_FFFF && y <= 0xFFFF_FFFF
    ensures Compact(Key(x, y)) == x && Compact(Key(x, y) >> 1) == y
  {
  }

  // ----- encoding and decoding by tables of bytes

  function MortonTable(byte: bv64): bv64
    requires byte <= 0xFF
  {
    Spread(byte)
  }

  function Encode(x: bv64, y: bv64): bv64 {
    (MortonTable((y >> 8) & 0xFF) << 17) | (MortonTable((x >> 8) & 0xFF) << 16) | (MortonTable(y & 0xFF) << 1) | MortonTable(x & 0xFF)
  }

  function DecodeTable(byte: bv64): bv64
    requires byte <= 0xFF
  {
    Compact(byte)
  }

  /** Puts the even bits of seven bytes together: the seven rounds of the loop, written out. */
  function DecodeHelper(z: bv64): bv64 {
    DecodeTable(z & 0xFF) | (DecodeTable((z >> 8) & 0xFF) << 4) | (DecodeTable((z >> 16) & 0xFF) << 8) | (DecodeTable((z >> 24) & 0xFF) << 12)
    | (DecodeTable((z >> 32) & 0xFF) << 16) | (DecodeTable((z >> 40) & 0xFF) << 20) | (DecodeTable((z >> 48) & 0xFF) << 24)
  }

  /** The cell of a key of at most 48 bits. */
  function Decode(z: bv64): (bv64, bv64) {
    if z < 0x1_0000_0000_0000 then (DecodeHelper(z), DecodeHelper(z >> 1)) else (0, 0)
  }

  lemma DecodeHelperOk(z: bv64)
    requires z < 0x1_0000_0000_0000
    ensures DecodeHelper(z) == Compact(z)
  {
  }

  lemma DecodeOk(z: bv64)
    requires z < 0x1_0000_0000_0000
    ensures Decode(z) == (Compact(z), Compact(z >> 1))
  {
    DecodeHelperOk(z);
    DecodeHelperOk(z >> 1);
  }

  lemma EncodedLow(x: bv64, y: bv64)
    ensures Encode(x, y) == Encode(x & 0xFFFF, y & 0xFFFF)
  {
  }

  lemma EncodedRow(x: bv64)
    requires x <= 0xFFFF
    ensures Encode(x, 0) == Spread(x)
  {
  }

  lemma EncodedColumn(y: bv64)
    requires y <= 0xFFFF
    ensures Encode(0, y) == Spread(y) << 1
  {
  }

  lemma EncodedApart(x: bv64, y: bv64)
    ensures Encode(x, y) == Encode(x, 0) | Encode(0, y)
  {
  }

  lemma SmallKey(x: bv64, y: bv64)
    requires x <= 0xFFFF && y <= 0xFFFF
    ensures Encode(x, y) == Key(x, y)
  {
    EncodedRow(x);
    EncodedColumn(y);
    EncodedApart(x, y);
  }

  lemma Low(x: bv64)
    ensures x & 0xFFFF <= 0xFFFF
  {
  }

  lemma EncodedKey(x: bv64, y: bv64)
    ensures Encode(x, y) == Key(x & 0xFFFF, y & 0xFFFF)
  {
    EncodedLow(x, y);
    Low(x);
    Low(y);
    SmallKey(x & 0xFFFF, y & 0xFFFF);
  }

  lemma EncodedBits(x: bv64, y: bv64)
    ensures Compact(Encode(x, y)) == x & 0xFFFF && Compact(Encode(x, y) >> 1) == y & 0xFFFF
  {
    EncodedKey(x, y);
    Low(x);
    Low(y);
    CellOfKey(x & 0xFFFF, y & 0xFFFF);
  }

  lemma EncodedSize(x: bv64, y: bv64)
    ensures Encode(x, y) <= 0xFFFF_FFFF
  {
  }

  function Bit(n: bv64, i: bv64): bv64
    requires i < 64
  {
    (n >> i) & 1
  }

  /** The lower sixteen bits of x are at the even places, and those of y at the odd ones. */
  lemma EncodeInterleaves(x: bv64, y: bv64, i: bv64)
    requires i < 16
    ensures Bit(Encode(x, y), 2 * i) == Bit(x, i) && Bit(Encode(x, y), 2 * i + 1) == Bit(y, i)
  {
  }

  lemma Truncated(x: bv64)
    ensures x & 0xFFFF == x <==> x <= 0xFFFF
  {
  }

  /** A cell is decoded from its key exactly when sixteen bits hold its coordinates. */
  lemma EncodeDecode(x: bv64, y: bv64)
    ensures Decode(Encode(x, y)) == (x, y) <==> x <= 0xFFFF && y <= 0xFFFF
  {
    EncodedBits(x, y);
    EncodedSize(x, y);
    DecodeOk(Encode(x, y));
    Truncated(x);
    Truncated(y);
  }

  /** With more bits, cells that are far apart share a key. */
  lemma FarCellsShareKeys(x: bv64, y: bv64)
    ensures Encode(x ^ 0x1_0000, y) == Encode(x, y) && Encode(x, y ^ 0x1_0000) == Encode(x, y)
  {
  }

  /** Different cells have different keys. */
  lemma EncodeInjective(x: bv64, y: bv64, x': bv64, y': bv64)
    requires x <= 0xFFFF && y <= 0xFFFF && x' <= 0xFFFF && y' <= 0xFFFF && Encode(x, y) == Encode(x', y')
    ensures x == x' && y == y'
  {
  }

  // ----- steps to neighbouring cells

  function Up(z: bv64): bv64 {
    (((z | EVEN) + 1) & ODD) | (z & EVEN)
  }

  function Down(z: bv64): bv64 {
    (((z & ODD) - 1) & ODD) | (z & EVEN)
  }

  function Right(z: bv64): bv64 {
    (((z | ODD) + 1) & EVEN) | (z & ODD)
  }

  function Left(z: bv64): bv64 {
    (((z & EVEN) - 1) & EVEN) | (z & ODD)
  }

  // on encoded cells, a step is right exactly if sixteen bits hold the coordinate it leads to

  lemma UpOfCell(x: bv64, y: bv64)
    requires x <= 0xFFFF && y <= 0xFFFF
    ensures Up(Encode(x, y)) == Encode(x, y + 1) <==> y < 0xFFFF
  {
  }

  lemma DownOfCell(x: bv64, y: bv64)
    requires x <= 0xFFFF && y <= 0xFFFF
    ensures Down(Encode(x, y)) == Encode(x, y - 1) <==> y > 0
  {
  }

  lemma RightBelowLast(x: bv64, y: bv64)
    requires x < 0xFFFF && y <= 0xFFFF
    ensures Right(Encode(x, y)) == Encode(x + 1, y)
  {
  }

  lemma RightOfLast(y: bv64)
    requires y <= 0xFFFF
    ensures Right(Encode(0xFFFF, y)) != Encode(0x1_0000, y)
  {
  }

  lemma LeftUndoesRight(x: bv64, y: bv64)
    requires x < 0xFFFF && y <= 0xFFFF
    ensures Left(Encode(x + 1, y)) == Encode(x, y)
  {
  }

  lemma LeftOfFirst(y: bv64)
    requires y <= 0xFFFF
    ensures Left(Encode(0, y)) != Encode(0 - 1, y)
  {
  }

  lemma RightOfCell(x: bv64, y: bv64)
    requires x <= 0xFFFF && y <= 0xFFFF
    ensures Right(Encode(x, y)) == Encode(x + 1, y) <==> x < 0xFFFF
  {
    if x < 0xFFFF {
      RightBelowLast(x, y);
    } else {
      assert x == 0xFFFF;
      RightOfLast(y);
    }
  }

  lemma LeftOfCell(x: bv64, y: bv64)
    requires x <= 0xFFFF && y <= 0xFFFF
    ensures Left(Encode(x, y)) == Encode(x - 1, y) <==> x > 0
  {
    if x > 0 {
      LeftUndoesRight(x - 1, y);
      assert x - 1 + 1 == x;
    } else {
      assert x == 0;
      LeftOfFirst(y);
    }
  }
}
