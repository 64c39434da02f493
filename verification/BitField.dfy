/** Integers of any width at any bit offset, and the BITFIELD command
    (src/bitops.c). 64-bit machine integers are mathematical integers here,
    with every wrap-around written out. */
module BitField {
  import opened Common
  import opened Arith
  import opened Bits
  import opened BitValue

  // ------------------------------------------------------ machine integers

  function U64(x: int): (r: nat)
    ensures r < 0x1_0000_0000_0000_0000
  {
    x % 0x1_0000_0000_0000_0000
  }

  function S64(x: int): (r: int)
    ensures -0x8000_0000_0000_0000 <= r < 0x8000_0000_0000_0000
  {
    var u := U64(x);
    if u >= 0x8000_0000_0000_0000 then u - 0x1_0000_0000_0000_0000 else u
  }

  predicate IsU64(x: int) { 0 <= x < 0x1_0000_0000_0000_0000 }
  predicate IsS64(x: int) { -0x8000_0000_0000_0000 <= x < 0x8000_0000_0000_0000 }

  /** An n-bit pattern read as a two's complement number. */
  function Signed(v: nat, n: nat): int
    requires n > 0
  {
    if v >= Pow2(n - 1) then v - Pow2(n) else v
  }

  // ------------------------------------------------------------ setting bits

  /** One bit of a byte replaced: clear it, then or the new value in. */
  function SetBit(b: bv8, k: nat, v: bool): bv8
    requires k < 8
  {
    (b & !Mask(k)) | (if v then Mask(k) else 0)
  }

  lemma SetBitOf(b: bv8, k: nat, v: bool, i: nat)
    requires k < 8 && i < 8
    ensures BitOf(SetBit(b, k, v), i) == if i == k then v else BitOf(b, i)
  {
  }

  function WithBit(s: seq<bv8>, i: nat, v: bool): (r: seq<bv8>)
    requires i < 8 * |s|
    ensures |r| == |s|
  {
    s[i / 8 := SetBit(s[i / 8], i % 8, v)]
  }

  lemma WithBitAt(s: seq<bv8>, i: nat, v: bool, k: nat)
    requires i < 8 * |s|
    ensures PaddedBit(WithBit(s, i, v), k) == if k == i then v else PaddedBit(s, k)
  {
    hide SetBit, BitOf;
    if k < 8 * |s| {
      SetBitOf(s[i / 8], i % 8, v, k % 8);
      if k / 8 == i / 8 && k % 8 == i % 8 {
        assert k == 8 * (k / 8) + k % 8 == i;
      }
    }
  }

  /** The string with the n bits from `lo` on spelling v modulo 2^n. */
  function SetField(s: seq<bv8>, lo: nat, n: nat, v: nat): (r: seq<bv8>)
    requires lo + n <= 8 * |s|
    ensures |r| == |s|
  {
    if n == 0 then s else WithBit(SetField(s, lo, n - 1, v / 2), lo + n - 1, v % 2 == 1)
  }

  /** No bit outside a written field moves. */
  lemma {:induction false} SetFieldFrame(s: seq<bv8>, lo: nat, n: nat, v: nat, i: nat)
    requires lo + n <= 8 * |s| && !(lo <= i < lo + n)
    ensures PaddedBit(SetField(s, lo, n, v), i) == PaddedBit(s, i)
    decreases n
  {
    hide PaddedBit, WithBit;
    if n > 0 {
      SetFieldFrame(s, lo, n - 1, v / 2, i);
      WithBitAt(SetField(s, lo, n - 1, v / 2), lo + n - 1, v % 2 == 1, i);
    }
  }

  /** A written field holds the value modulo 2^n. */
  lemma {:induction false} SetFieldValue(s: seq<bv8>, lo: nat, n: nat, v: nat)
    requires lo + n <= 8 * |s|
    ensures Value(SetField(s, lo, n, v), lo, n) == v % Pow2(n)
    decreases n
  {
    hide PaddedBit, WithBit, BitFrom;
    if n > 0 {
      SetFieldValue(s, lo, n - 1, v / 2);
      LastBitWritten(SetField(s, lo, n - 1, v / 2), lo, n, v % 2 == 1);
      ModuloByHalf(v, Pow2(n - 1));
    }
  }

  lemma LastBitWritten(t: seq<bv8>, lo: nat, n: nat, b: bool)
    requires n > 0 && lo + n <= 8 * |t|
    ensures Value(WithBit(t, lo + n - 1, b), lo, n) == 2 * Value(t, lo, n - 1) + Val(b)
  {
    hide PaddedBit, WithBit;
    var r := WithBit(t, lo + n - 1, b);
    forall k: nat | k < n ensures BitFrom(r, lo, k) == if k == n - 1 then b else BitFrom(t, lo, k) {
      WithBitAt(t, lo + n - 1, b, lo + k);
    }
    ValueSame(r, lo, t, lo, n - 1);
  }

  method SetUnsignedBitfield(p: array<bv8>, offset: nat, bits: nat, value: nat)
    requires offset + bits <= 8 * p.Length && bits <= 64 && IsU64(value)
    modifies p
    ensures p[..] == SetField(old(p[..]), offset, bits, value)
  {
    hide SetBit, SetField, Pow2, ShiftRight;
    FieldStart(p[..], offset, value, bits);
    var at := offset;
    var j := 0;
    while j < bits
      invariant 0 <= j <= bits && at == offset + j
      invariant p[..] == SetField(old(p[..]), offset, j, ShiftRight(value, bits - j))
    {
      var bitval := NumBit(value, bits, j) == 1;
      FieldStep(old(p[..]), offset, j, value, bits);
      ghost var before := p[..];
      p[at / 8] := SetBit(p[at / 8], at % 8, bitval);
      assert p[..] == WithBit(before, at, bitval);
      at := at + 1;
      j := j + 1;
    }
    Pow2Values();
    NoShift(value);
  }

  lemma FieldStart(s: seq<bv8>, lo: nat, v: nat, n: nat)
    requires lo + n <= 8 * |s|
    ensures SetField(s, lo, 0, ShiftRight(v, n)) == s
  {
  }

  lemma NoShift(v: nat)
    ensures ShiftRight(v, 0) == v
  {
  }

  /** One more of the leading bits of v. */
  lemma FieldStep(s: seq<bv8>, lo: nat, j: nat, v: nat, n: nat)
    requires j < n && lo + n <= 8 * |s|
    ensures SetField(s, lo, j + 1, ShiftRight(v, n - (j + 1))) ==
            WithBit(SetField(s, lo, j, ShiftRight(v, n - j)), lo + j, NumBit(v, n, j) == 1)
  {
    hide WithBit;
    SwapDivision(v, Pow2(n - j - 1));
  }

  lemma SwapDivision(v: nat, p: nat)
    requires p > 0
    ensures v / p / 2 == v / (2 * p)
  {
    var q, r := v / p, v % p;
    assert v == p * q + r;
    var h, b := q / 2, q % 2;
    assert v == h * (2 * p) + (b * p + r) by {
      assert p * q == p * (2 * h + b) == h * (2 * p) + b * p;
    }
    assert b * p + r < 2 * p;
    DivModUnique(v, h, b * p + r, 2 * p);
  }

  // ------------------------------------------------------------ getting bits

  method GetUnsignedBitfield(p: seq<bv8>, offset: nat, bits: nat) returns (value: nat)
    requires offset + bits <= 8 * |p| && bits <= 64
    ensures value == Value(p, offset, bits) && value < Pow2(bits)
  {
    hide Bit, Pow2;
    value := 0;
    var at := offset;
    for j := 0 to bits
      invariant at == offset + j && value == Value(p, offset, j)
    {
      var bitval := Val(Bit(p, at));
      assert BitFrom(p, offset, j) == Bit(p, at);
      value := 2 * value + bitval;
      at := at + 1;
    }
    ValueBound(p, offset, bits);
  }

  method GetSignedBitfield(p: seq<bv8>, offset: nat, bits: nat) returns (value: int)
    requires offset + bits <= 8 * |p| && 1 <= bits <= 64
    ensures value == Signed(Value(p, offset, bits), bits)
  {
    hide Pow2, Value;
    var u := GetUnsignedBitfield(p, offset, bits);
    value := S64(u);
    Pow2Values();
    Pow2Doubles(bits);
    if bits < 64 {
      Pow2Monotone(bits, 63);
      if (u / Pow2(bits - 1)) % 2 == 1 {
        // or with all ones shifted left by `bits`
        TopBit(u, bits);
        value := value - Pow2(bits);
      } else {
        TopBit(u, bits);
      }
    }
  }

  lemma Pow2Doubles(n: nat)
    requires n > 0
    ensures Pow2(n) == 2 * Pow2(n - 1)
  {
  }

  lemma TopBit(u: nat, n: nat)
    requires n > 0 && u < Pow2(n)
    ensures (u / Pow2(n - 1)) % 2 == if u >= Pow2(n - 1) then 1 else 0
  {
    var p := Pow2(n - 1);
    if u >= p {
      DivModUnique(u, 1, u - p, p);
    } else {
      DivModUnique(u, 0, u, p);
    }
  }

  // ------------------------------------------------------------ overflow

  datatype Overflow = WRAP | SAT | FAIL

  /** Return value and *limit of an overflow check. */
  datatype Check = Check(ret: int, limit: int)

  function Min(sign: bool, n: nat): int
    requires n > 0
  {
    if sign then -(Pow2(n - 1) as int) else 0
  }

  function Max(sign: bool, n: nat): int
    requires n > 0
  {
    if sign then Pow2(n - 1) - 1 else Pow2(n) - 1
  }

  predicate Fits(x: int, sign: bool, n: nat)
    requires n > 0
  {
    Min(sign, n) <= x <= Max(sign, n)
  }

  /** The number of the type that is congruent to x modulo 2^n. */
  function Wrap(x: int, sign: bool, n: nat): int
    requires n > 0
  {
    var low := Residue(x, n);
    if sign then Signed(low, n) else low
  }

  function Clamp(x: int, sign: bool, n: nat): int
    requires n > 0
  {
    if x < Min(sign, n) then Min(sign, n) else if x > Max(sign, n) then Max(sign, n) else x
  }

  ghost predicate Congruent(x: int, y: int, m: nat) { exists k: int :: x == y + k * m }

  /** Wrap is the only number of the type congruent to its argument. */
  lemma WrapIsCongruent(x: int, sign: bool, n: nat, y: int)
    requires n > 0
    ensures Fits(y, sign, n) && Congruent(x, y, Pow2(n)) <==> y == Wrap(x, sign, n)
  {
    hide Pow2;
    Pow2Doubles(n);
    var m := Pow2(n);
    var q, low := x / m, Residue(x, n);
    assert x == m * q + low && 0 <= low < m;
    if y == Wrap(x, sign, n) {
      var k := if y == low then q else q + 1;
      WrapWitness(x, y, k, m, q, low);
    } else if Fits(y, sign, n) && Congruent(x, y, m) {
      var k: int :| x == y + k * m;
      OnlyResidue(x, y, k, m);
      assert false;
    }
  }

  /** A number congruent to x is its remainder or the one below zero. */
  lemma OnlyResidue(x: int, y: int, k: int, m: int)
    requires m > 0 && x == y + k * m && -m <= y < m
    ensures x % m == if y < 0 then y + m else y
  {
    if y < 0 {
      NextMultiple(k - 1, m);
      DivModUnique(x, k - 1, y + m, m);
    } else {
      DivModUnique(x, k, y, m);
    }
  }

  lemma NextMultiple(k: int, m: int)
    ensures (k + 1) * m == k * m + m
  {
  }

  lemma WrapWitness(x: int, y: int, k: int, m: nat, q: int, low: int)
    requires x == m * q + low
    requires (y == low && k == q) || (y == low - m && k == q + 1)
    ensures Congruent(x, y, m)
  {
    NextMultiple(q, m);
    assert x == y + k * m;
  }

  function CheckUnsigned(value: nat, incr: int, bits: nat, ow: Overflow): Check
    requires 1 <= bits <= 63 && IsU64(value) && IsS64(incr)
  {
    var max := Pow2(bits) - 1;
    var maxincr := S64(max - value);
    var minincr := S64(-(value as int));
    var wrapped := Residue(U64(value + incr), bits);
    if value > max || (incr > 0 && incr > maxincr) then
      Check(1, if ow == WRAP then wrapped else if ow == SAT then max else 0)
    else if incr < 0 && incr < minincr then
      if ow == WRAP then Check(1, wrapped) else Check(-1, 0)
    else Check(0, 0)
  }

  function CheckSigned(value: int, incr: int, bits: nat, ow: Overflow): Check
    requires 1 <= bits <= 64 && IsS64(value) && IsS64(incr)
  {
    var max := Pow2(bits - 1) - 1;
    var min := -max - 1;
    var maxincr := S64(U64(max) - U64(value));
    var minincr := S64(U64(min) - U64(value));
    if value > max || (bits != 64 && incr > maxincr) || (value >= 0 && incr > 0 && incr > maxincr) then
      Check(1, if ow == WRAP then WrapLimit(value, incr, bits) else if ow == SAT then max else 0)
    else if value < min || (bits != 64 && incr < minincr) || (value < 0 && incr < 0 && incr < minincr) then
      if ow == WRAP then Check(1, WrapLimit(value, incr, bits)) else Check(-1, if ow == SAT then min else 0)
    else Check(0, 0)
  }

  /** Adds as unsigned numbers, then spreads the sign bit or masks it off. */
  function WrapLimit(value: int, incr: int, bits: nat): int
    requires 1 <= bits <= 64
  {
    var c := U64(U64(value) + U64(incr));
    if bits == 64 then S64(c)
    else if NumBit(c, bits, 0) == 1 then S64(0x1_0000_0000_0000_0000 - Pow2(bits) + Residue(c, bits))
    else S64(Residue(c, bits))
  }

  lemma SmallS64(x: int)
    requires IsS64(x)
    ensures S64(x) == x
  {
    if x >= 0 {
      DivModUnique(x, 0, x, 0x1_0000_0000_0000_0000);
    } else {
      DivModUnique(x, -1, x + 0x1_0000_0000_0000_0000, 0x1_0000_0000_0000_0000);
    }
  }

  lemma U64Of(x: int)
    requires IsS64(x)
    ensures U64(x) == if x >= 0 then x else x + 0x1_0000_0000_0000_0000
  {
    SmallS64(x);
  }

  /** Reducing modulo 2^64 first does not change the residue modulo 2^n. */
  lemma ResidueOfU64(x: int, n: nat)
    requires n <= 64
    ensures Residue(U64(x), n) == Residue(x, n)
  {
    hide Pow2;
    Pow2Values();
    Pow2Add(n, 64 - n);
    var m, c := Pow2(n), Pow2(64 - n);
    var q, u := x / 0x1_0000_0000_0000_0000, U64(x);
    assert x == 0x1_0000_0000_0000_0000 * q + u;
    var d, r := u / m, u % m;
    assert u == m * d + r;
    Regroup(x, q, m, c, d, r);
    DivModUnique(x, q * c + d, r, m);
  }

  lemma Regroup(x: int, q: int, m: int, c: int, d: int, r: int)
    requires x == (m * c) * q + (m * d + r)
    ensures x == (q * c + d) * m + r
  {
  }

  lemma UnsignedIncrExact(value: nat, incr: int, bits: nat, ow: Overflow)
    requires 1 <= bits <= 63 && Fits(value, false, bits) && IsS64(incr) && IsU64(value)
    ensures var r, sum := CheckUnsigned(value, incr, bits, ow), value + incr;
            && (r.ret == 0 <==> Fits(sum, false, bits))
            && (r.ret != 0 && ow == WRAP ==> r.limit == Wrap(sum, false, bits))
            && (r.ret != 0 && ow == SAT ==> r.limit == Clamp(sum, false, bits))
  {
    hide Pow2, U64, S64;
    Pow2Values();
    Pow2Monotone(bits, 63);
    SmallS64(Pow2(bits) - 1 - value);
    SmallS64(-(value as int));
    ResidueOfU64(value + incr, bits);
  }

  lemma U64Shift(x: int, k: int)
    ensures U64(x + k * 0x1_0000_0000_0000_0000) == U64(x)
  {
    var q, r := x / 0x1_0000_0000_0000_0000, x % 0x1_0000_0000_0000_0000;
    DivModUnique(x + k * 0x1_0000_0000_0000_0000, q + k, r, 0x1_0000_0000_0000_0000);
  }

  /** Sums and differences of 64-bit values may be taken before or after the
      reduction. */
  lemma U64Linear(x: int, y: int)
    requires IsS64(x) && IsS64(y)
    ensures U64(U64(x) + U64(y)) == U64(x + y)
    ensures S64(U64(x) - U64(y)) == S64(x - y)
  {
    hide U64;
    U64Of(x);
    U64Of(y);
    var a, b := if x >= 0 then 0 else 1, if y >= 0 then 0 else 1;
    U64Shift(x + y, a + b);
    U64Shift(x - y, a - b);
  }

  lemma SignBit(c: nat, n: nat)
    requires n > 0
    ensures NumBit(c, n, 0) == 1 <==> Residue(c, n) >= Pow2(n - 1)
  {
    hide Pow2;
    Pow2Doubles(n);
    var h := Pow2(n - 1);
    var q, low := c / (2 * h), Residue(c, n);
    assert c == (2 * h) * q + low;
    var t := if low >= h then 1 else 0;
    assert c == (2 * q + t) * h + (low - t * h) by {
      assert (2 * h) * q == (2 * q) * h;
    }
    DivModUnique(c, 2 * q + t, low - t * h, h);
  }

  lemma WrapLimitIsWrap(value: int, incr: int, bits: nat)
    requires 1 <= bits <= 64 && IsS64(value) && IsS64(incr)
    ensures WrapLimit(value, incr, bits) == Wrap(value + incr, true, bits)
  {
    hide Pow2, U64, S64, NumBit;
    U64Linear(value, incr);
    var c := U64(value + incr);
    ResidueOfU64(value + incr, bits);
    SignBit(c, bits);
    Pow2Values();
    Pow2Doubles(bits);
    if bits == 64 {
      WholeResidue(c);
      S64OfU64(c);
    } else {
      Pow2Monotone(bits, 63);
      var low := Residue(c, bits);
      SmallS64(low);
      SmallS64(low - Pow2(bits));
      S64Shifted(low - Pow2(bits));
    }
  }

  lemma WholeResidue(c: nat)
    requires IsU64(c)
    ensures Residue(c, 64) == c
  {
    Pow2Values();
    DivModUnique(c, 0, c, 0x1_0000_0000_0000_0000);
  }

  lemma S64OfU64(c: nat)
    requires IsU64(c)
    ensures S64(c) == if c >= 0x8000_0000_0000_0000 then c - 0x1_0000_0000_0000_0000 else c
  {
    DivModUnique(c, 0, c, 0x1_0000_0000_0000_0000);
  }

  lemma S64Shifted(x: int)
    ensures S64(0x1_0000_0000_0000_0000 + x) == S64(x)
  {
    hide U64;
    U64Shift(x, 1);
  }

  lemma SignedLimits(bits: nat)
    requires 1 <= bits <= 64
    ensures Max(true, bits) <= 0x7FFF_FFFF_FFFF_FFFF && Min(true, bits) == -Max(true, bits) - 1
    ensures bits < 64 ==> Max(true, bits) <= 0x3FFF_FFFF_FFFF_FFFF
    ensures bits == 64 ==> Max(true, bits) == 0x7FFF_FFFF_FFFF_FFFF
  {
    hide Pow2;
    Pow2Values();
    Pow2Doubles(63);
    if bits < 64 {
      Pow2Monotone(bits - 1, 62);
    }
  }

  lemma SignedIncrExact(value: int, incr: int, bits: nat, ow: Overflow)
    requires 1 <= bits <= 64 && Fits(value, true, bits) && IsS64(value) && IsS64(incr)
    ensures var r, sum := CheckSigned(value, incr, bits, ow), value + incr;
            && (r.ret == 0 <==> Fits(sum, true, bits))
            && (r.ret != 0 && ow == WRAP ==> r.limit == Wrap(sum, true, bits))
            && (r.ret != 0 && ow == SAT ==> r.limit == Clamp(sum, true, bits))
  {
    hide Pow2, U64, S64, WrapLimit, Wrap;
    var max, min := Max(true, bits), Min(true, bits);
    SignedLimits(bits);
    U64Linear(max, value);
    U64Linear(min, value);
    WrapLimitIsWrap(value, incr, bits);
    if bits < 64 || value >= 0 {
      SmallS64(max - value);
    }
    if bits < 64 || value < 0 {
      SmallS64(min - value);
    }
  }

  /** SET of a signed field: in-range values are kept, WRAP stores the
      congruent value, and SAT stores the clamped value exactly when the
      distance to the maximum does not overflow 64 bits. */
  lemma SignedSetExact(value: int, bits: nat, ow: Overflow)
    requires 1 <= bits <= 64 && IsS64(value)
    ensures var r := CheckSigned(value, 0, bits, ow);
            && (r.ret == 0 <==> Fits(value, true, bits))
            && (r.ret != 0 && ow == WRAP ==> r.limit == Wrap(value, true, bits))
            && (r.ret != 0 && ow == SAT ==>
                  (r.limit == Clamp(value, true, bits) <==> Max(true, bits) - value <= 0x7FFF_FFFF_FFFF_FFFF))
  {
    hide Pow2, U64, S64, WrapLimit, Wrap;
    var max, min := Max(true, bits), Min(true, bits);
    SignedLimits(bits);
    U64Linear(max, value);
    U64Linear(min, value);
    WrapLimitIsWrap(value, 0, bits);
    if max - value <= 0x7FFF_FFFF_FFFF_FFFF {
      if value <= max {
        SmallS64(max - value);
      }
      if value <= max && (bits < 64 || value < 0) {
        SmallS64(min - value);
      }
    } else {
      FarBelow(max, value);
    }
  }

  lemma FarBelow(max: int, value: int)
    requires 0 <= max <= 0x7FFF_FFFF_FFFF_FFFF && IsS64(value) && max - value > 0x7FFF_FFFF_FFFF_FFFF
    ensures S64(max - value) == max - value - 0x1_0000_0000_0000_0000 < 0
  {
    var x := max - value;
    DivModUnique(x, 0, x, 0x1_0000_0000_0000_0000);
  }

  /** A value far below an 8-bit range is stored as its maximum under SAT. */
  lemma SatSetCounterexample()
    ensures CheckSigned(-0x8000_0000_0000_0000, 0, 8, SAT).limit == 127
    ensures Clamp(-0x8000_0000_0000_0000, true, 8) == -128
  {
    hide U64, S64, WrapLimit;
    assert Pow2(7) == 128 && Pow2(8) == 256 by {
      assert Pow2(4) == 16;
    }
    U64Linear(127, -0x8000_0000_0000_0000);
    FarBelow(127, -0x8000_0000_0000_0000);
  }

  /** SET of an unsigned field works on the value as an unsigned number, so
      SAT stores the maximum for negative arguments too. */
  lemma UnsignedSetExact(value: int, bits: nat, ow: Overflow)
    requires 1 <= bits <= 63 && IsS64(value)
    ensures var r := CheckUnsigned(U64(value), 0, bits, ow);
            && (r.ret == 0 <==> Fits(value, false, bits))
            && (r.ret == 0 ==> U64(value) == value)
            && (r.ret != 0 && ow == WRAP ==> r.limit == Wrap(value, false, bits))
            && (r.ret != 0 && ow == SAT ==> r.limit == Max(false, bits))
  {
    hide Pow2, U64, S64;
    Pow2Values();
    Pow2Monotone(bits, 63);
    U64Of(value);
    ResidueOfU64(value, bits);
    ResidueOfU64(U64(value) + 0, bits);
    assert U64(value) + 0 == U64(value);
  }

  // ------------------------------------------------------- nine-byte window

  /** GET copies up to nine bytes into a zeroed buffer. */
  method CopyWindow(s: seq<bv8>, byte: nat) returns (buf: seq<bv8>)
    ensures |buf| == 9 && forall i :: 0 <= i < 9 ==> buf[i] == Padded(s, byte + i)
  {
    var b := new bv8[9](_ => 0);
    var i := 0;
    while i < 9 && i + byte < |s|
      invariant 0 <= i <= 9
      invariant forall k :: 0 <= k < i ==> b[k] == Padded(s, byte + k)
      invariant forall k :: i <= k < 9 ==> b[k] == 0
    {
      b[i] := s[i + byte];
      i := i + 1;
    }
    buf := b[..];
  }

  /** Reading through the window equals reading the zero-padded string. */
  lemma WindowValue(s: seq<bv8>, buf: seq<bv8>, offset: nat, n: nat)
    requires n <= 64 && |buf| == 9 && forall i :: 0 <= i < 9 ==> buf[i] == Padded(s, offset / 8 + i)
    ensures Value(buf, offset % 8, n) == Value(s, offset, n)
  {
    hide Value, Padded;
    forall k: nat | k < n ensures BitFrom(buf, offset % 8, k) == BitFrom(s, offset, k) {
      WindowBit(s, buf, offset, k);
    }
    ValueSame(buf, offset % 8, s, offset, n);
  }

  lemma WindowBit(s: seq<bv8>, buf: seq<bv8>, offset: nat, k: nat)
    requires k < 64 && |buf| == 9 && forall i :: 0 <= i < 9 ==> buf[i] == Padded(s, offset / 8 + i)
    ensures BitFrom(buf, offset % 8, k) == BitFrom(s, offset, k)
  {
    hide BitOf;
    var a := offset % 8 + k;
    var i, j := a / 8, a % 8;
    BitFromByte(buf, 0, i, j);
    BitFromByte(s, offset / 8, i, j);
    assert offset + k == 8 * (offset / 8) + (8 * i + j);
  }

  // --------------------------------------------------------- the command

  datatype FieldOp =
    | Get(sign: bool, bits: nat, offset: nat)
    | Set(sign: bool, bits: nat, offset: nat, arg: int, ow: Overflow)
    | IncrBy(sign: bool, bits: nat, offset: nat, arg: int, ow: Overflow)

  /** What the argument parser lets through: i1-i64 and u1-u63. */
  predicate WellTyped(op: FieldOp) {
    && 1 <= op.bits <= (if op.sign then 64 else 63)
    && (!op.Get? ==> IsS64(op.arg))
  }

  /** The number a typed field of the zero-padded string holds. */
  function Read(s: seq<bv8>, offset: nat, bits: nat, sign: bool): int
    requires bits > 0
  {
    if sign then Signed(Value(s, offset, bits), bits) else Value(s, offset, bits)
  }

  /** The value INCRBY stores and replies, or none when FAIL declines. */
  function IncrResult(stored: int, arg: int, sign: bool, bits: nat, ow: Overflow): Option<int>
    requires bits > 0
  {
    var sum := stored + arg;
    if Fits(sum, sign, bits) then Some(sum)
    else match ow
      case WRAP => Some(Wrap(sum, sign, bits))
      case SAT => Some(Clamp(sum, sign, bits))
      case FAIL => None
  }

  /** The value SET stores. */
  function SetResult(arg: int, sign: bool, bits: nat, ow: Overflow): Option<int>
    requires bits > 0
  {
    if Fits(arg, sign, bits) then Some(arg)
    else match ow
      case WRAP => Some(Wrap(arg, sign, bits))
      case SAT => Some(if !sign || Max(sign, bits) - arg > 0x7FFF_FFFF_FFFF_FFFF then Max(sign, bits)
                       else Clamp(arg, sign, bits))
      case FAIL => None
  }

  /** String after one operation, and its reply. */
  function Step(s: seq<bv8>, op: FieldOp): (seq<bv8>, Option<int>)
    requires WellTyped(op) && (!op.Get? ==> op.offset + op.bits <= 8 * |s|)
  {
    var stored := Read(s, op.offset, op.bits, op.sign);
    if op.Get? then (s, Some(stored))
    else
      var r := if op.Set? then SetResult(op.arg, op.sign, op.bits, op.ow)
               else IncrResult(stored, op.arg, op.sign, op.bits, op.ow);
      if r.None? then (s, None)
      else (SetField(s, op.offset, op.bits, U64(r.value)), Some(if op.Set? then stored else r.value))
  }

  function Run(s: seq<bv8>, ops: seq<FieldOp>): (r: (seq<bv8>, seq<Option<int>>))
    requires forall op :: op in ops ==> WellTyped(op) && (!op.Get? ==> op.offset + op.bits <= 8 * |s|)
    ensures |r.0| == |s| && |r.1| == |ops|
  {
    if ops == [] then (s, [])
    else
      var before := Run(s, ops[..|ops| - 1]);
      var last := Step(before.0, ops[|ops| - 1]);
      (last.0, before.1 + [last.1])
  }

  lemma ReadFits(s: seq<bv8>, offset: nat, bits: nat, sign: bool)
    requires 1 <= bits <= (if sign then 64 else 63)
    ensures Fits(Read(s, offset, bits, sign), sign, bits) && IsS64(Read(s, offset, bits, sign))
  {
    hide Pow2, Value;
    ValueBound(s, offset, bits);
    FitsIsS64(Read(s, offset, bits, sign), sign, bits);
    Pow2Doubles(bits);
  }

  lemma FitsIsS64(x: int, sign: bool, bits: nat)
    requires 1 <= bits <= (if sign then 64 else 63)
    ensures Fits(x, sign, bits) ==> IsS64(x)
  {
    hide Pow2;
    Pow2Values();
    if sign {
      Pow2Monotone(bits - 1, 63);
    } else {
      Pow2Monotone(bits, 63);
    }
  }

  lemma WrapFits(x: int, sign: bool, bits: nat)
    requires bits > 0
    ensures Fits(Wrap(x, sign, bits), sign, bits) && Fits(Clamp(x, sign, bits), sign, bits)
  {
    hide Pow2;
    Pow2Doubles(bits);
  }

  /** The value an operation stores, if it stores one. */
  function Outcome(s: seq<bv8>, op: FieldOp): Option<int>
    requires WellTyped(op) && !op.Get?
  {
    if op.Set? then SetResult(op.arg, op.sign, op.bits, op.ow)
    else IncrResult(Read(s, op.offset, op.bits, op.sign), op.arg, op.sign, op.bits, op.ow)
  }

  lemma OutcomeFits(s: seq<bv8>, op: FieldOp)
    requires WellTyped(op) && !op.Get?
    ensures Outcome(s, op).Some? ==> Fits(Outcome(s, op).value, op.sign, op.bits)
  {
    hide Wrap, Clamp, Read;
    WrapFits(op.arg, op.sign, op.bits);
    WrapFits(Read(s, op.offset, op.bits, op.sign) + op.arg, op.sign, op.bits);
    assert Fits(Max(op.sign, op.bits), op.sign, op.bits);
  }

  /** A value of the type survives being written as 64 bits and read back. */
  lemma ReadBack(s: seq<bv8>, offset: nat, bits: nat, sign: bool, x: int)
    requires 1 <= bits <= (if sign then 64 else 63) && offset + bits <= 8 * |s| && Fits(x, sign, bits)
    ensures Read(SetField(s, offset, bits, U64(x)), offset, bits, sign) == x
  {
    hide Pow2, Value, SetField, U64;
    SetFieldValue(s, offset, bits, U64(x));
    ResidueOfU64(x, bits);
    Pow2Doubles(bits);
    var m := Pow2(bits);
    if x >= 0 {
      DivModUnique(x, 0, x, m);
    } else {
      DivModUnique(x, -1, x + m, m);
    }
  }

  /** What one operation does to the string: the field it names reads back as
      the value it stores, every other bit stays, and a declined or reading
      operation changes nothing. */
  lemma StepExact(s: seq<bv8>, op: FieldOp)
    requires WellTyped(op) && (!op.Get? ==> op.offset + op.bits <= 8 * |s|)
    ensures var t := Step(s, op).0;
            && |t| == |s|
            && (op.Get? || Outcome(s, op).None? ==> t == s)
            && (!op.Get? && Outcome(s, op).Some? ==>
                  && Read(t, op.offset, op.bits, op.sign) == Outcome(s, op).value
                  && forall i: nat :: !(op.offset <= i < op.offset + op.bits) ==> PaddedBit(t, i) == PaddedBit(s, i))
  {
    hide Pow2, PaddedBit, SetField, Read, U64;
    if !op.Get? && Outcome(s, op).Some? {
      OutcomeFits(s, op);
      ReadBack(s, op.offset, op.bits, op.sign, Outcome(s, op).value);
      forall i: nat | !(op.offset <= i < op.offset + op.bits)
        ensures PaddedBit(Step(s, op).0, i) == PaddedBit(s, i)
      {
        SetFieldFrame(s, op.offset, op.bits, U64(Outcome(s, op).value), i);
      }
    }
  }

  /** What a write stores: the number itself where it is in the range of the type;
      else its only congruent number of the type, the nearer limit or nothing, by
      the overflow type. SET with SAT stores the upper limit for an unsigned type
      and for numbers too far below. */
  lemma OutcomeMeans(s: seq<bv8>, op: FieldOp)
    requires WellTyped(op) && !op.Get?
    ensures var n := if op.Set? then op.arg else Read(s, op.offset, op.bits, op.sign) + op.arg;
      var lo, hi := if op.sign then -(Pow2(op.bits - 1) as int) else 0, (if op.sign then Pow2(op.bits - 1) else Pow2(op.bits)) - 1;
      var r := Outcome(s, op);
      && (lo <= n <= hi ==> r == Some(n))
      && (!(lo <= n <= hi) && op.ow == FAIL ==> r == None)
      && (!(lo <= n <= hi) && op.ow == WRAP ==> r.Some? && lo <= r.value <= hi && Congruent(n, r.value, Pow2(op.bits)))
      && (n > hi && op.ow == SAT ==> r == Some(hi))
      && (n < lo && op.ow == SAT ==> r == Some(if op.Set? && (!op.sign || hi - n > 0x7FFF_FFFF_FFFF_FFFF) then hi else lo))
  {
    hide Pow2, Read, Wrap, Congruent;
    var n := if op.Set? then op.arg else Read(s, op.offset, op.bits, op.sign) + op.arg;
    WrapIsCongruent(n, op.sign, op.bits, Wrap(n, op.sign, op.bits));
  }

  /** What one operation replies, from the string before and after it: GET and
      SET reply the number before, INCRBY the number after, and FAIL nothing where
      the number does not fit. */
  ghost predicate RepliesRight(s: seq<bv8>, op: FieldOp, t: seq<bv8>, reply: Option<int>)
    requires WellTyped(op)
  {
    var was, now := Read(s, op.offset, op.bits, op.sign), Read(t, op.offset, op.bits, op.sign);
    match op
    case Get(_, _, _) => reply == Some(was) && t == s
    case Set(sign, bits, _, arg, ow) => reply == if ow == FAIL && !Fits(arg, sign, bits) then None else Some(was)
    case IncrBy(sign, bits, _, arg, ow) => reply == if ow == FAIL && !Fits(was + arg, sign, bits) then None else Some(now)
  }

  lemma ReplyExact(s: seq<bv8>, op: FieldOp)
    requires WellTyped(op) && (!op.Get? ==> op.offset + op.bits <= 8 * |s|)
    ensures RepliesRight(s, op, Step(s, op).0, Step(s, op).1)
    ensures Step(s, op).1.None? ==> Step(s, op).0 == s
  {
    hide Pow2, PaddedBit, SetField, Read, U64, Fits;
    StepExact(s, op);
  }

  /** Every reply of a list of operations, from the strings before and after its
      own operation. */
  lemma {:induction false} RepliesExact(s: seq<bv8>, ops: seq<FieldOp>, k: nat)
    requires forall op :: op in ops ==> WellTyped(op) && (!op.Get? ==> op.offset + op.bits <= 8 * |s|)
    requires k < |ops|
    ensures RepliesRight(Run(s, ops[..k]).0, ops[k], Run(s, ops[..k + 1]).0, Run(s, ops).1[k])
    decreases |ops|
  {
    hide RepliesRight, Step, WellTyped;
    var n := |ops| - 1;
    assert ops[k] in ops;
    if k == n {
      assert ops[..k + 1] == ops;
      ReplyExact(Run(s, ops[..n]).0, ops[n]);
    } else {
      RepliesExact(s, ops[..n], k);
      assert ops[..n][..k] == ops[..k] && ops[..n][..k + 1] == ops[..k + 1];
    }
  }

  method ExecuteSigned(p: array<bv8>, op: FieldOp) returns (reply: Option<int>)
    requires WellTyped(op) && !op.Get? && op.sign && op.offset + op.bits <= 8 * p.Length
    modifies p
    ensures (p[..], reply) == Step(old(p[..]), op)
  {
    hide Pow2, SetField, Value, Wrap, Clamp, U64, CheckSigned;
    ReadFits(p[..], op.offset, op.bits, true);
    OutcomeFits(p[..], op);
    var oldval := GetSignedBitfield(p[..], op.offset, op.bits);
    var newval, retval, check;
    if op.IncrBy? {
      check := CheckSigned(oldval, op.arg, op.bits, op.ow);
      SignedIncrExact(oldval, op.arg, op.bits, op.ow);
      newval := if check.ret != 0 then check.limit else oldval + op.arg;
      retval := newval;
    } else {
      check := CheckSigned(op.arg, 0, op.bits, op.ow);
      SignedSetExact(op.arg, op.bits, op.ow);
      SatLimits(op.arg, op.bits);
      newval := if check.ret != 0 then check.limit else op.arg;
      retval := oldval;
    }
    if !(check.ret != 0 && op.ow == FAIL) {
      reply := Some(retval);
      FitsIsS64(newval, true, op.bits);
      SetUnsignedBitfield(p, op.offset, op.bits, U64(newval));
    } else {
      reply := None;
    }
  }

  /** Beyond that distance SAT stores the maximum. */
  lemma SatLimits(value: int, bits: nat)
    requires 1 <= bits <= 64 && IsS64(value)
    ensures Max(true, bits) - value > 0x7FFF_FFFF_FFFF_FFFF ==>
              CheckSigned(value, 0, bits, SAT).limit == Max(true, bits) || Fits(value, true, bits)
  {
    hide Pow2, U64, S64, WrapLimit;
    SignedLimits(bits);
    U64Linear(Max(true, bits), value);
    if Max(true, bits) - value > 0x7FFF_FFFF_FFFF_FFFF {
      FarBelow(Max(true, bits), value);
    }
  }

  method ExecuteUnsigned(p: array<bv8>, op: FieldOp) returns (reply: Option<int>)
    requires WellTyped(op) && !op.Get? && !op.sign && op.offset + op.bits <= 8 * p.Length
    modifies p
    ensures (p[..], reply) == Step(old(p[..]), op)
  {
    hide Pow2, SetField, Value, Wrap, Clamp, U64, CheckUnsigned;
    ReadFits(p[..], op.offset, op.bits, false);
    OutcomeFits(p[..], op);
    var oldval := GetUnsignedBitfield(p[..], op.offset, op.bits);
    var newval, retval, check;
    if op.IncrBy? {
      newval := U64(oldval + op.arg);
      check := CheckUnsigned(oldval, op.arg, op.bits, op.ow);
      UnsignedIncrExact(oldval, op.arg, op.bits, op.ow);
      FitsIsS64(oldval + op.arg, false, op.bits);
      SmallU64(oldval + op.arg);
      if check.ret != 0 { newval := check.limit; }
      retval := newval;
    } else {
      newval := U64(op.arg);
      check := CheckUnsigned(newval, 0, op.bits, op.ow);
      UnsignedSetExact(op.arg, op.bits, op.ow);
      if check.ret != 0 { newval := check.limit; }
      retval := oldval;
    }
    if !(check.ret != 0 && op.ow == FAIL) {
      reply := Some(retval);
      FitsIsS64(newval, false, op.bits);
      SmallU64(newval);
      SetUnsignedBitfield(p, op.offset, op.bits, newval);
    } else {
      reply := None;
    }
  }

  lemma SmallU64(x: int)
    ensures IsU64(x) ==> U64(x) == x
  {
    if IsU64(x) {
      DivModUnique(x, 0, x, 0x1_0000_0000_0000_0000);
    }
  }

  method ExecuteGet(s: seq<bv8>, op: FieldOp) returns (reply: int)
    requires WellTyped(op) && op.Get?
    ensures reply == Read(s, op.offset, op.bits, op.sign)
  {
    hide Pow2, Value;
    var byte := op.offset / 8;
    var buf := CopyWindow(s, byte);
    WindowValue(s, buf, op.offset, op.bits);
    if op.sign {
      reply := GetSignedBitfield(buf, op.offset - byte * 8, op.bits);
    } else {
      reply := GetUnsignedBitfield(buf, op.offset - byte * 8, op.bits);
    }
  }

  datatype Reply = ReadOnlyError | Replies(values: seq<Option<int>>)

  /** One past the highest bit that a list of operations writes. */
  function WriteEnd(ops: seq<FieldOp>): (n: nat)
    ensures forall op :: op in ops && !op.Get? ==> op.offset + op.bits <= n
  {
    if ops == [] then 0
    else
      var n, op := WriteEnd(ops[..|ops| - 1]), ops[|ops| - 1];
      assert ops == ops[..|ops| - 1] + [op];
      if !op.Get? && op.offset + op.bits > n then op.offset + op.bits else n
  }

  /** The string with room for its first n bits. */
  function Grown(s: seq<bv8>, n: nat): (r: seq<bv8>)
    ensures n <= 8 * |r| && s <= r && (|r| > |s| ==> 8 * (|r| - 1) < n)
    ensures forall i :: |s| <= i < |r| ==> r[i] == 0
  {
    var need := (n + 7) / 8;
    if need <= |s| then s else s + seq(need - |s|, _ => 0)
  }

  method WriteExtent(ops: seq<FieldOp>) returns (readonly: bool, writeEnd: nat)
    ensures readonly <==> forall op :: op in ops ==> op.Get?
    ensures writeEnd == WriteEnd(ops)
    ensures readonly ==> writeEnd == 0
    ensures !readonly ==> exists op :: op in ops && !op.Get? && op.offset + op.bits == writeEnd
    ensures forall op :: op in ops && !op.Get? ==> op.offset + op.bits <= writeEnd
  {
    readonly, writeEnd := true, 0;
    ghost var top := Get(false, 1, 0);
    for j := 0 to |ops|
      invariant readonly <==> forall op :: op in ops[..j] ==> op.Get?
      invariant writeEnd == WriteEnd(ops[..j])
      invariant readonly ==> writeEnd == 0
      invariant !readonly ==> top in ops[..j] && !top.Get? && top.offset + top.bits == writeEnd
    {
      assert ops[..j + 1] == ops[..j] + [ops[j]] && ops[..j + 1][..j] == ops[..j];
      if !ops[j].Get? {
        if readonly || writeEnd < ops[j].offset + ops[j].bits {
          top := ops[j];
        }
        readonly := false;
        if writeEnd < ops[j].offset + ops[j].bits {
          writeEnd := ops[j].offset + ops[j].bits;
        }
      }
    }
    assert ops[..|ops|] == ops;
  }

  method BitFieldCommand(o: Option<seq<bv8>>, ops: seq<FieldOp>, readOnly: bool)
    returns (reply: Reply, o': Option<seq<bv8>>)
    requires forall op :: op in ops ==> WellTyped(op)
    ensures var s := if o.Some? then o.value else [];
            var writes := exists op :: op in ops && !op.Get?;
            && (writes && readOnly ==> reply == ReadOnlyError && o' == o)
            && (!(writes && readOnly) ==>
                  && reply == Replies(Run(Grown(s, WriteEnd(ops)), ops).1)
                  && o' == if writes then Some(Run(Grown(s, WriteEnd(ops)), ops).0) else o)
  {
    hide Step, WriteEnd;
    var s := if o.Some? then o.value else [];
    var readonly, writeEnd := WriteExtent(ops);
    if !readonly && readOnly {
      return ReadOnlyError, o;
    }
    var grown := Grown(s, writeEnd);
    assert readonly ==> grown == s;
    var p := new bv8[|grown|](i requires 0 <= i < |grown| => grown[i]);
    assert p[..] == grown;
    var values := [];
    for j := 0 to |ops|
      invariant (p[..], values) == Run(grown, ops[..j])
    {
      assert ops[..j + 1][..j] == ops[..j] && ops[..j + 1][j] == ops[j] && ops[j] in ops;
      var value;
      if ops[j].Get? {
        var v := ExecuteGet(p[..], ops[j]);
        value := Some(v);
        assert (p[..], value) == Step(p[..], ops[j]) by { GetStep(p[..], ops[j]); }
      } else if ops[j].sign {
        value := ExecuteSigned(p, ops[j]);
      } else {
        value := ExecuteUnsigned(p, ops[j]);
      }
      values := values + [value];
    }
    assert ops[..|ops|] == ops;
    reply := Replies(values);
    o' := if readonly then o else Some(p[..]);
  }

  lemma GetStep(s: seq<bv8>, op: FieldOp)
    requires WellTyped(op) && op.Get?
    ensures Step(s, op) == (s, Some(Read(s, op.offset, op.bits, op.sign)))
  {
  }
}
