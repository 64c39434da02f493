/** Strings as bit arrays (src/bitops.c): bit 0 is the most significant bit
    of the first byte. */
module Bits {

  /** The mask of bit i of a byte, counted from the most significant. */
  function Mask(i: nat): bv8
    requires i < 8
  {
    if i == 0 then 0x80 else if i == 1 then 0x40 else if i == 2 then 0x20 else if i == 3 then 0x10
    else if i == 4 then 0x08 else if i == 5 then 0x04 else if i == 6 then 0x02 else 0x01
  }

  /** The byte as a number. */
  function Num(b: bv8): (n: nat)
    ensures n < 0x100
  {
    b as int
  }

  predicate BitOf(b: bv8, i: nat)
    requires i < 8
  {
    b & Mask(i) != 0
  }

  /** Bit 0 of a byte is its most significant one. */
  lemma HighBitFirst(b: bv8, i: nat)
    requires i < 8
    ensures BitOf(b, i) <==> b & ((0x80 as bv8) >> i) != 0
  {
  }

  predicate Bit(s: seq<bv8>, i: nat)
    requires i < 8 * |s|
  {
    BitOf(s[i / 8], i % 8)
  }

  function Val(b: bool): nat { if b then 1 else 0 }

  /** How many of the bits lo <= i < hi are set. */
  function CountBits(s: seq<bv8>, lo: nat, hi: nat): (n: nat)
    requires lo <= hi <= 8 * |s|
    decreases hi
  {
    if lo == hi then 0 else CountBits(s, lo, hi - 1) + Val(Bit(s, hi - 1))
  }

  lemma {:induction false} CountSplit(s: seq<bv8>, lo: nat, mid: nat, hi: nat)
    requires lo <= mid <= hi <= 8 * |s|
    ensures CountBits(s, lo, hi) == CountBits(s, lo, mid) + CountBits(s, mid, hi)
    decreases hi
  {
    hide Bit;
    if mid < hi {
      CountSplit(s, lo, mid, hi - 1);
    }
  }

  /** Counts agree where the bits agree, at any offset. */
  lemma {:induction false} CountSame(s: seq<bv8>, t: seq<bv8>, lo: nat, hi: nat, at: nat)
    requires lo <= hi <= 8 * |s| && at + (hi - lo) <= 8 * |t|
    requires forall i :: lo <= i < hi ==> Bit(s, i) == Bit(t, at + (i - lo))
    ensures CountBits(s, lo, hi) == CountBits(t, at, at + (hi - lo))
    decreases hi
  {
    hide BitOf;
    if lo < hi {
      CountSame(s, t, lo, hi - 1, at);
    }
  }

  lemma CountSlice(s: seq<bv8>, a: nat, b: nat)
    requires a <= b <= |s|
    ensures CountBits(s[a..b], 0, 8 * (b - a)) == CountBits(s, 8 * a, 8 * b)
  {
    hide BitOf;
    forall i | 8 * a <= i < 8 * b ensures Bit(s, i) == Bit(s[a..b], 0 + (i - 8 * a)) {
      assert (i - 8 * a) / 8 == i / 8 - a && (i - 8 * a) % 8 == i % 8;
    }
    CountSame(s, s[a..b], 8 * a, 8 * b, 0);
  }
}
