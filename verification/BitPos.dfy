/** The search for the first bit of a value in a string, word by word
    (src/bitops.c). */
module BitPos {
  import opened Arith
  import opened Bits
  import opened BitValue

  /** The least lo <= i < hi whose bit is `bit`, or hi. */
  function FirstBit(s: seq<bv8>, bit: bool, lo: nat, hi: nat): (r: nat)
    requires lo <= hi <= 8 * |s|
    ensures lo <= r <= hi
    ensures r < hi ==> Bit(s, r) == bit
    ensures forall i :: lo <= i < r ==> Bit(s, i) != bit
    decreases hi - lo
  {
    if lo == hi || Bit(s, lo) == bit then lo else FirstBit(s, bit, lo + 1, hi)
  }

  lemma FirstBitIs(s: seq<bv8>, bit: bool, lo: nat, hi: nat, r: nat)
    requires lo <= r <= hi <= 8 * |s|
    requires r < hi ==> Bit(s, r) == bit
    requires forall i :: lo <= i < r ==> Bit(s, i) != bit
    ensures FirstBit(s, bit, lo, hi) == r
  {
    hide Bit;
  }

  /** What serverBitpos answers: the first such bit; else -1 for ones, and
      for zeros the position just past the string. */
  function BitposAnswer(s: seq<bv8>, bit: bool): int {
    var r := FirstBit(s, bit, 0, 8 * |s|);
    if bit && r == 8 * |s| then -1 else r
  }

  // --------------------------------------------------------- word search

  function SkipValue(bit: bool): bv8 { if bit then 0 else 0xFF }

  /** All eight bits of byte i differ from `bit`. */
  ghost predicate SkipByte(s: seq<bv8>, i: nat, bit: bool)
    requires i < |s|
  {
    forall k :: 8 * i <= k < 8 * i + 8 ==> Bit(s, k) != bit
  }

  lemma SkipByteIff(s: seq<bv8>, i: nat, bit: bool)
    requires i < |s|
    ensures s[i] == SkipValue(bit) ==> SkipByte(s, i, bit)
    ensures s[i] != SkipValue(bit) ==> exists k :: 8 * i <= k < 8 * i + 8 && Bit(s, k) == bit
  {
    var b := s[i];
    assert b == 0 || b & 0x80 != 0 || b & 0x40 != 0 || b & 0x20 != 0 || b & 0x10 != 0 ||
           b & 8 != 0 || b & 4 != 0 || b & 2 != 0 || b & 1 != 0;
    assert b == 0xFF || b & 0x80 == 0 || b & 0x40 == 0 || b & 0x20 == 0 || b & 0x10 == 0 ||
           b & 8 == 0 || b & 4 == 0 || b & 2 == 0 || b & 1 == 0;
    assert forall k :: 8 * i <= k < 8 * i + 8 ==> k / 8 == i;
    assert Bit(s, 8 * i) == BitOf(b, 0) && Bit(s, 8 * i + 1) == BitOf(b, 1) && Bit(s, 8 * i + 2) == BitOf(b, 2);
    assert Bit(s, 8 * i + 3) == BitOf(b, 3) && Bit(s, 8 * i + 4) == BitOf(b, 4) && Bit(s, 8 * i + 5) == BitOf(b, 5);
    assert Bit(s, 8 * i + 6) == BitOf(b, 6) && Bit(s, 8 * i + 7) == BitOf(b, 7);
  }

  /** The eight bytes from s[i] on as one machine word. */
  function WordAt(s: seq<bv8>, i: nat): nat
    requires i + 8 <= |s|
  {
    Num(s[i]) + 0x100 * Num(s[i + 1]) + 0x1_0000 * Num(s[i + 2]) + 0x100_0000 * Num(s[i + 3]) +
    0x1_0000_0000 * Num(s[i + 4]) + 0x100_0000_0000 * Num(s[i + 5]) +
    0x1_0000_0000_0000 * Num(s[i + 6]) + 0x100_0000_0000_0000 * Num(s[i + 7])
  }

  function SkipWord(bit: bool): nat { if bit then 0 else 0xFFFF_FFFF_FFFF_FFFF }

  lemma NumExtremes(b: bv8)
    ensures Num(b) == 0 <==> b == 0
    ensures Num(b) == 0xFF <==> b == 0xFF
  {
  }

  lemma WordSkips(s: seq<bv8>, i: nat, bit: bool)
    requires i + 8 <= |s|
    ensures WordAt(s, i) == SkipWord(bit) <==> forall j :: i <= j < i + 8 ==> s[j] == SkipValue(bit)
  {
    hide Num;
    forall j | i <= j < i + 8 ensures (Num(s[j]) == 0 <==> s[j] == 0) && (Num(s[j]) == 0xFF <==> s[j] == 0xFF) {
      NumExtremes(s[j]);
    }
    if WordAt(s, i) == SkipWord(bit) {
      assert s[i] == SkipValue(bit) && s[i + 1] == SkipValue(bit) && s[i + 2] == SkipValue(bit) && s[i + 3] == SkipValue(bit);
      assert s[i + 4] == SkipValue(bit) && s[i + 5] == SkipValue(bit) && s[i + 6] == SkipValue(bit) && s[i + 7] == SkipValue(bit);
    }
  }

  /** No bit before position n is `bit`. */
  ghost predicate CleanUpTo(s: seq<bv8>, n: nat, bit: bool)
    requires n <= 8 * |s|
  {
    forall k :: 0 <= k < n ==> Bit(s, k) != bit
  }

  /** Some bit of the 64 padded bits from byte i on is `bit`. */
  ghost predicate HitNear(s: seq<bv8>, i: nat, bit: bool) {
    exists k :: 0 <= k < 64 && BitFrom(s, 8 * i, k) == bit
  }

  lemma CleanByte(s: seq<bv8>, i: nat, bit: bool)
    requires i < |s| && CleanUpTo(s, 8 * i, bit) && s[i] == SkipValue(bit)
    ensures CleanUpTo(s, 8 * i + 8, bit)
  {
    hide Bit;
    SkipByteIff(s, i, bit);
  }

  lemma CleanWord(s: seq<bv8>, i: nat, bit: bool)
    requires i + 8 <= |s| && CleanUpTo(s, 8 * i, bit) && WordAt(s, i) == SkipWord(bit)
    ensures CleanUpTo(s, 8 * (i + 8), bit)
  {
    hide WordAt, Bit;
    WordSkips(s, i, bit);
    forall k | 0 <= k < 8 * (i + 8) ensures Bit(s, k) != bit {
      if k >= 8 * i {
        SkipByteIff(s, k / 8, bit);
      }
    }
  }

  lemma ByteHits(s: seq<bv8>, i: nat, j: nat, bit: bool)
    requires i <= j < i + 8 && j < |s| && s[j] != SkipValue(bit)
    ensures HitNear(s, i, bit)
  {
    hide Bit;
    SkipByteIff(s, j, bit);
    var k :| 8 * j <= k < 8 * j + 8 && Bit(s, k) == bit;
    assert BitFrom(s, 8 * i, k - 8 * i) == bit;
  }

  lemma PadHits(s: seq<bv8>, i: nat)
    requires i <= |s| < i + 8
    ensures HitNear(s, i, false)
  {
    assert BitFrom(s, 8 * i, 8 * |s| - 8 * i) == false;
  }

  method LoadWord(s: seq<bv8>, i: nat) returns (word: nat)
    ensures word == Value(s, 8 * i, 64)
  {
    word := 0;
    for j := 0 to 8
      invariant word == Value(s, 8 * i, 8 * j)
    {
      AppendedByte(s, i, j);
      word := (word * 0x100) % 0x1_0000_0000_0000_0000;
      if i + j < |s| {
        word := word + Num(s[i + j]);
      }
    }
  }

  lemma AppendedByte(s: seq<bv8>, i: nat, j: nat)
    requires j < 8
    ensures (Value(s, 8 * i, 8 * j) * 0x100) % 0x1_0000_0000_0000_0000 +
            (if i + j < |s| then Num(s[i + j]) else 0) == Value(s, 8 * i, 8 * j + 8)
  {
    hide Value, Num;
    ValueAppendByte(s, i, j);
    NumExtremes(Padded(s, i + j));
    ValueBound(s, 8 * i, 8 * j);
    Pow2Monotone(8 * j, 56);
    Pow2Values();
    var v := Value(s, 8 * i, 8 * j);
    DivModUnique(v * 0x100, 0, v * 0x100, 0x1_0000_0000_0000_0000);
  }

  /** Scans the word from its most significant bit; the caller knows that a
      match exists, so the loop cannot run off the end. */
  method ScanWord(s: seq<bv8>, i: nat, word: nat, bit: bool) returns (k: nat)
    requires word == Value(s, 8 * i, 64) && HitNear(s, i, bit)
    ensures k < 64 && BitFrom(s, 8 * i, k) == bit
    ensures forall j :: 0 <= j < k ==> BitFrom(s, 8 * i, j) != bit
  {
    hide BitFrom, Value;
    Pow2Values();
    var one := 0x8000_0000_0000_0000;
    k := 0;
    while one > 0
      invariant 0 <= k <= 64 && one == if k < 64 then Pow2(63 - k) else 0
      invariant forall j :: 0 <= j < k ==> BitFrom(s, 8 * i, j) != bit
    {
      ValueBit(s, 8 * i, 64, k);
      if ((word / one) % 2 == 1) == bit {
        return;
      }
      k := k + 1;
      one := one / 2;
    }
    assert false;
  }

  method ServerBitpos(s: seq<bv8>, address: nat, bit: bool) returns (pos: int)
    ensures pos == BitposAnswer(s, bit)
  {
    hide Bit, BitFrom, Value, WordAt, FirstBit;
    var i := 0;
    var found := false;
    while (address + i) % 8 != 0 && i < |s|
      invariant i <= |s| && CleanUpTo(s, 8 * i, bit)
      invariant !found
      decreases |s| - i
    {
      if s[i] != SkipValue(bit) {
        found := true;
        break;
      }
      CleanByte(s, i, bit);
      i := i + 1;
    }
    if !found {
      while |s| - i >= 8
        invariant i <= |s| && CleanUpTo(s, 8 * i, bit)
      {
        if WordAt(s, i) != SkipWord(bit) {
          break;
        }
        CleanWord(s, i, bit);
        i := i + 8;
      }
    }
    if found {
      ByteHits(s, i, i, bit);
    } else if |s| - i >= 8 {
      WordSkips(s, i, bit);
      var j :| i <= j < i + 8 && s[j] != SkipValue(bit);
      ByteHits(s, i, j, bit);
    } else if !bit {
      PadHits(s, i);
    }
    var word := LoadWord(s, i);
    if bit && word == 0 {
      ZeroWord(s, i);
      NothingLeft(s, i, bit);
      return -1;
    }
    if bit {
      NonZeroWord(s, i);
    }
    var k := ScanWord(s, i, word, bit);
    FoundAt(s, i, bit, k);
    pos := 8 * i + k;
  }

  lemma {:induction false} ZeroValue(s: seq<bv8>, lo: nat, n: nat)
    ensures Value(s, lo, n) == 0 <==> forall k :: 0 <= k < n ==> !BitFrom(s, lo, k)
  {
    hide BitFrom;
    if n > 0 {
      ZeroValue(s, lo, n - 1);
    }
  }

  lemma ZeroWord(s: seq<bv8>, i: nat)
    requires Value(s, 8 * i, 64) == 0
    ensures !HitNear(s, i, true)
  {
    ZeroValue(s, 8 * i, 64);
  }

  lemma NonZeroWord(s: seq<bv8>, i: nat)
    requires Value(s, 8 * i, 64) != 0
    ensures HitNear(s, i, true)
  {
    ZeroValue(s, 8 * i, 64);
  }

  lemma NothingLeft(s: seq<bv8>, i: nat, bit: bool)
    requires i <= |s| < i + 8 && CleanUpTo(s, 8 * i, bit) && !HitNear(s, i, bit)
    ensures FirstBit(s, bit, 0, 8 * |s|) == 8 * |s|
  {
    hide Bit;
    forall k | 0 <= k < 8 * |s| ensures Bit(s, k) != bit {
      if k >= 8 * i {
        assert BitFrom(s, 8 * i, k - 8 * i) != bit;
      }
    }
  }

  lemma FoundAt(s: seq<bv8>, i: nat, bit: bool, k: nat)
    requires i <= |s| && CleanUpTo(s, 8 * i, bit)
    requires BitFrom(s, 8 * i, k) == bit
    requires forall j :: 0 <= j < k ==> BitFrom(s, 8 * i, j) != bit
    ensures BitposAnswer(s, bit) == 8 * i + k
  {
    hide Bit;
    var n := 8 * |s|;
    if bit || 8 * i + k < n {
      forall j | 0 <= j < 8 * i + k ensures Bit(s, j) != bit {
        if j >= 8 * i {
          assert BitFrom(s, 8 * i, j - 8 * i) != bit;
        }
      }
      FirstBitIs(s, bit, 0, n, 8 * i + k);
    } else {
      forall j | 0 <= j < n ensures Bit(s, j) {
        if j >= 8 * i {
          assert BitFrom(s, 8 * i, j - 8 * i) != bit;
        }
      }
      FirstBitIs(s, bit, 0, n, n);
      assert 8 * i + k > n ==> BitFrom(s, 8 * i, n - 8 * i) != bit;
    }
  }
}
