/** Facts about fixed-width vectors, stated without any function of this
    project so that each is one bit-blasted query. */
module BitVectors {

  lemma WordValue(w: bv32, b0: bv8, b1: bv8, b2: bv8, b3: bv8)
    requires w == (b0 as bv32) | ((b1 as bv32) << 8) | ((b2 as bv32) << 16) | ((b3 as bv32) << 24)
    ensures w as int == b0 as int + 0x100 * (b1 as int) + 0x10000 * (b2 as int) + 0x1000000 * (b3 as int)
  {
  }

  /** The three folding steps leave in a byte the number of its ones. */
  lemma FoldByte(b: bv8)
    ensures var p := b - ((b >> 1) & 0x55);
            var q := (p & 0x33) + ((p >> 2) & 0x33);
            ((q + (q >> 4)) & 0x0F) as int ==
            (if b & 0x80 != 0 then 1 else 0) + (if b & 0x40 != 0 then 1 else 0) +
            (if b & 0x20 != 0 then 1 else 0) + (if b & 0x10 != 0 then 1 else 0) +
            (if b & 0x08 != 0 then 1 else 0) + (if b & 0x04 != 0 then 1 else 0) +
            (if b & 0x02 != 0 then 1 else 0) + (if b & 0x01 != 0 then 1 else 0)
  {
  }

  lemma ByteValue(b: bv8)
    ensures b as int ==
            (if b & 0x80 != 0 then 128 else 0) + (if b & 0x40 != 0 then 64 else 0) +
            (if b & 0x20 != 0 then 32 else 0) + (if b & 0x10 != 0 then 16 else 0) +
            (if b & 0x08 != 0 then 8 else 0) + (if b & 0x04 != 0 then 4 else 0) +
            (if b & 0x02 != 0 then 2 else 0) + (if b & 0x01 != 0 then 1 else 0)
  {
  }

  lemma XorMask(x: bv8, y: bv8, m: bv8)
    requires m == 0x80 || m == 0x40 || m == 0x20 || m == 0x10 || m == 8 || m == 4 || m == 2 || m == 1
    ensures (x ^ y) & m != 0 <==> (x & m != 0 <==> y & m == 0)
  {
  }

  lemma AddThree(x: bv8, y: bv8, z: bv8)
    ensures x + y + z == x + (y + z)
  {
  }
}
