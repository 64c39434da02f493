/** Unsigned numbers held in consecutive bits of a zero-padded string, most
    significant bit first. */
module BitValue {
  import opened Arith
  import opened Bits
  import BitVectors

  /** Bit i of the string extended with zeros without end. */
  predicate PaddedBit(s: seq<bv8>, i: nat) { i < 8 * |s| && Bit(s, i) }

  predicate BitFrom(s: seq<bv8>, lo: nat, k: nat) { PaddedBit(s, lo + k) }

  /** The number in the n bits from `lo` on. */
  function Value(s: seq<bv8>, lo: nat, n: nat): (v: nat) {
    if n == 0 then 0 else 2 * Value(s, lo, n - 1) + Val(BitFrom(s, lo, n - 1))
  }

  /** Bit k of v written with n bits, counted from the most significant. */
  function NumBit(v: nat, n: nat, k: nat): nat
    requires k < n
  {
    (v / Pow2(n - 1 - k)) % 2
  }

  lemma {:induction false} ValueBound(s: seq<bv8>, lo: nat, n: nat)
    ensures Value(s, lo, n) < Pow2(n)
  {
    hide BitFrom;
    if n > 0 {
      ValueBound(s, lo, n - 1);
    }
  }

  /** The value determines each of its bits. */
  lemma {:induction false} ValueBit(s: seq<bv8>, lo: nat, n: nat, k: nat)
    requires k < n
    ensures NumBit(Value(s, lo, n), n, k) == Val(BitFrom(s, lo, k))
    decreases n
  {
    hide BitFrom;
    var v, b := Value(s, lo, n - 1), Val(BitFrom(s, lo, n - 1));
    if k == n - 1 {
      DivModUnique(2 * v + b, v, b, 2);
    } else {
      ValueBit(s, lo, n - 1, k);
      HalveDivision(v, b, Pow2(n - 2 - k));
    }
  }

  lemma HalveDivision(v: nat, b: nat, p: nat)
    requires b < 2 && p > 0
    ensures (2 * v + b) / (2 * p) == v / p
  {
    var q, r := v / p, v % p;
    assert v == p * q + r;
    assert 2 * v + b == q * (2 * p) + (2 * r + b) by {
      assert q * (2 * p) == 2 * (p * q);
    }
    DivModUnique(2 * v + b, q, 2 * r + b, 2 * p);
  }

  lemma ModuloByHalf(v: nat, p: nat)
    requires p > 0
    ensures v % (2 * p) == 2 * ((v / 2) % p) + v % 2
  {
    var h, b := v / 2, v % 2;
    var q, r := h / p, h % p;
    assert h == p * q + r;
    assert v == q * (2 * p) + (2 * r + b) by {
      assert q * (2 * p) == 2 * (p * q);
    }
    DivModUnique(v, q, 2 * r + b, 2 * p);
  }

  lemma {:induction false} ValueSame(s: seq<bv8>, lo: nat, t: seq<bv8>, at: nat, n: nat)
    requires forall k :: 0 <= k < n ==> BitFrom(s, lo, k) == BitFrom(t, at, k)
    ensures Value(s, lo, n) == Value(t, at, n)
  {
    hide BitFrom;
    if n > 0 {
      ValueSame(s, lo, t, at, n - 1);
    }
  }

  function Padded(s: seq<bv8>, i: nat): bv8 { if i < |s| then s[i] else 0 }

  /** Appending a byte to a value shifts it by eight bits. */
  lemma ValueAppendByte(s: seq<bv8>, i: nat, j: nat)
    ensures Value(s, 8 * i, 8 * j + 8) == 0x100 * Value(s, 8 * i, 8 * j) + Num(Padded(s, i + j))
  {
    hide Value, Val, BitOf, Padded, Num;
    var b := Padded(s, i + j);
    TwoMoreBits(s, i, j, 0);
    TwoMoreBits(s, i, j, 2);
    TwoMoreBits(s, i, j, 4);
    TwoMoreBits(s, i, j, 6);
    ByteAsBits(b);
  }

  lemma TwoMoreBits(s: seq<bv8>, i: nat, j: nat, k: nat)
    requires k < 7
    ensures var b := Padded(s, i + j);
            Value(s, 8 * i, 8 * j + k + 2) ==
            4 * Value(s, 8 * i, 8 * j + k) + 2 * Val(BitOf(b, k)) + Val(BitOf(b, k + 1))
  {
    hide BitFrom, BitOf;
    BitFromByte(s, i, j, k);
    BitFromByte(s, i, j, k + 1);
    assert Value(s, 8 * i, 8 * j + k + 1) == 2 * Value(s, 8 * i, 8 * j + k) + Val(BitOf(Padded(s, i + j), k));
  }

  lemma BitFromByte(s: seq<bv8>, i: nat, j: nat, k: nat)
    requires k < 8
    ensures BitFrom(s, 8 * i, 8 * j + k) == BitOf(Padded(s, i + j), k)
  {
    var at := 8 * i + (8 * j + k);
    assert at / 8 == i + j && at % 8 == k;
  }

  lemma ByteAsBits(b: bv8)
    ensures Num(b) == 128 * Val(BitOf(b, 0)) + 64 * Val(BitOf(b, 1)) + 32 * Val(BitOf(b, 2)) + 16 * Val(BitOf(b, 3)) +
                        8 * Val(BitOf(b, 4)) + 4 * Val(BitOf(b, 5)) + 2 * Val(BitOf(b, 6)) + Val(BitOf(b, 7))
  {
    BitVectors.ByteValue(b);
  }
}
