/** The population counts behind BITCOUNT (src/bitops.c): the scalar kernel
    that adds seven words at a time and the AVX2 kernel with byte lanes. */
module Popcount {
  import opened Arith
  import opened Bits
  import BitVectors

  /** What the 256-entry table bitsinbyte holds for `b`. */
  function OnesOf(b: bv8): (n: nat)
    ensures n <= 8
  {
    Val(BitOf(b, 0)) + Val(BitOf(b, 1)) + Val(BitOf(b, 2)) + Val(BitOf(b, 3)) +
    Val(BitOf(b, 4)) + Val(BitOf(b, 5)) + Val(BitOf(b, 6)) + Val(BitOf(b, 7))
  }

  function Ones(s: seq<bv8>): nat {
    if s == [] then 0 else Ones(s[..|s| - 1]) + OnesOf(s[|s| - 1])
  }

  lemma {:induction false} OnesIsCountBits(s: seq<bv8>)
    ensures Ones(s) == CountBits(s, 0, 8 * |s|)
  {
    hide OnesOf, Bit;
    if s != [] {
      var n := |s| - 1;
      OnesIsCountBits(s[..n]);
      CountSlice(s, 0, n);
      assert s[0..n] == s[..n];
      CountSplit(s, 0, 8 * n, 8 * n + 8);
      ByteCount(s, n);
    }
  }

  lemma ByteCount(s: seq<bv8>, n: nat)
    requires n < |s|
    ensures CountBits(s, 8 * n, 8 * n + 8) == OnesOf(s[n])
  {
    ByteCountUpTo(s, n, 8);
  }

  /** The ones among the first k bits of a byte. */
  function OnesUpTo(b: bv8, k: nat): nat
    requires k <= 8
  {
    if k == 0 then 0 else OnesUpTo(b, k - 1) + Val(BitOf(b, k - 1))
  }

  lemma {:induction false} ByteCountUpTo(s: seq<bv8>, n: nat, k: nat)
    requires n < |s| && k <= 8
    ensures CountBits(s, 8 * n, 8 * n + k) == OnesUpTo(s[n], k)
    ensures k == 8 ==> OnesUpTo(s[n], k) == OnesOf(s[n])
    decreases k
  {
    hide BitOf, Val;
    if k > 0 {
      ByteCountUpTo(s, n, k - 1);
      assert (8 * n + k - 1) / 8 == n && (8 * n + k - 1) % 8 == k - 1;
    }
    if k == 8 {
      OnesUpToEight(s[n]);
    }
  }

  lemma OnesUpToEight(b: bv8)
    ensures OnesUpTo(b, 8) == OnesOf(b)
  {
    hide BitOf, Val;
    assert OnesUpTo(b, 1) == OnesUpTo(b, 0) + Val(BitOf(b, 0));
    assert OnesUpTo(b, 2) == Val(BitOf(b, 0)) + Val(BitOf(b, 1));
    assert OnesUpTo(b, 4) == OnesUpTo(b, 2) + Val(BitOf(b, 2)) + Val(BitOf(b, 3));
    assert OnesUpTo(b, 6) == OnesUpTo(b, 4) + Val(BitOf(b, 4)) + Val(BitOf(b, 5));
  }

  lemma OnesEmpty()
    ensures Ones([]) == 0
  {
  }

  lemma {:induction false} OnesSplit(s: seq<bv8>, t: seq<bv8>)
    ensures Ones(s + t) == Ones(s) + Ones(t)
  {
    hide OnesOf;
    if t == [] {
      assert s + t == s;
    } else {
      var n := |t| - 1;
      OnesSplit(s, t[..n]);
      assert (s + t)[..|s + t| - 1] == s + t[..n];
    }
  }

  // ------------------------------------------------------- scalar kernel

  /** Four bytes loaded as one 32-bit word. */
  function Word(b0: bv8, b1: bv8, b2: bv8, b3: bv8): bv32 {
    (b0 as bv32) | ((b1 as bv32) << 8) | ((b2 as bv32) << 16) | ((b3 as bv32) << 24)
  }

  /** The three folding steps of the kernel on one byte. */
  function FoldByte(b: bv8): bv8 {
    var p := b - ((b >> 1) & 0x55);
    var q := (p & 0x33) + ((p >> 2) & 0x33);
    (q + (q >> 4)) & 0x0F
  }

  lemma FoldByteValue(b: bv8)
    ensures FoldByte(b) as int == OnesOf(b)
  {
    BitVectors.FoldByte(b);
  }

  /** On a word the steps work on each byte separately. */
  method FoldWord(b0: bv8, b1: bv8, b2: bv8, b3: bv8) returns (aux: bv32)
    ensures aux == Word(FoldByte(b0), FoldByte(b1), FoldByte(b2), FoldByte(b3))
  {
    aux := (b0 as bv32) | ((b1 as bv32) << 8) | ((b2 as bv32) << 16) | ((b3 as bv32) << 24);
    aux := aux - ((aux >> 1) & 0x55555555);
    aux := (aux & 0x33333333) + ((aux >> 2) & 0x33333333);
    aux := (aux + (aux >> 4)) & 0x0F0F0F0F;
  }

  lemma FoldedValue(b0: bv8, b1: bv8, b2: bv8, b3: bv8)
    ensures Word(FoldByte(b0), FoldByte(b1), FoldByte(b2), FoldByte(b3)) as int ==
            OnesOf(b0) + 0x100 * OnesOf(b1) + 0x10000 * OnesOf(b2) + 0x1000000 * OnesOf(b3)
  {
    hide OnesOf, FoldByte;
    FoldByteValue(b0); FoldByteValue(b1); FoldByteValue(b2); FoldByteValue(b3);
    var c0, c1, c2, c3 := FoldByte(b0), FoldByte(b1), FoldByte(b2), FoldByte(b3);
    BitVectors.WordValue(Word(c0, c1, c2, c3), c0, c1, c2, c3);
  }

  /** A 32-bit load at s[i..i+4] after the folding steps. */
  method LoadFolded(s: seq<bv8>, i: nat) returns (aux: nat)
    requires i + 4 <= |s|
    ensures aux ==
            OnesOf(s[i]) + 0x100 * OnesOf(s[i + 1]) + 0x10000 * OnesOf(s[i + 2]) + 0x1000000 * OnesOf(s[i + 3])
  {
    hide OnesOf, FoldByte, Word;
    var w := FoldWord(s[i], s[i + 1], s[i + 2], s[i + 3]);
    FoldedValue(s[i], s[i + 1], s[i + 2], s[i + 3]);
    aux := w as int;
  }

  lemma OnesOfFour(s: seq<bv8>, i: nat)
    requires i + 4 <= |s|
    ensures Ones(s[..i + 4]) ==
            Ones(s[..i]) + OnesOf(s[i]) + OnesOf(s[i + 1]) + OnesOf(s[i + 2]) + OnesOf(s[i + 3])
  {
    hide OnesOf, Ones;
    OnesStep(s, i); OnesStep(s, i + 1); OnesStep(s, i + 2); OnesStep(s, i + 3);
  }

  lemma OnesStep(s: seq<bv8>, i: nat)
    requires i < |s|
    ensures Ones(s[..i + 1]) == Ones(s[..i]) + OnesOf(s[i])
  {
    hide OnesOf;
    assert s[..i + 1][..i] == s[..i];
  }

  /** The multiply-and-shift that adds the four byte columns of the sum of
      seven folded words; no column exceeds 56 and their sum never exceeds
      224, so nothing carries out of the top byte. */
  function ColumnSum(sum: nat): nat { ((sum % 0x1_0000_0000) * 0x01010101) % 0x1_0000_0000 / 0x1000000 }

  lemma ColumnSumExact(a: nat, b: nat, c: nat, d: nat)
    requires a <= 56 && b <= 56 && c <= 56 && d <= 56
    ensures ColumnSum(a + 0x100 * b + 0x10000 * c + 0x1000000 * d) == a + b + c + d <= 224
  {
    var x := a + 0x100 * b + 0x10000 * c + 0x1000000 * d;
    var low := a + 0x100 * (a + b) + 0x10000 * (a + b + c);
    var high := (b + c + d) + 0x100 * (c + d) + 0x10000 * d;
    DivModUnique(x, 0, x, 0x1_0000_0000);
    DivModUnique(x * 0x01010101, high, low + 0x1000000 * (a + b + c + d), 0x1_0000_0000);
    DivModUnique(low + 0x1000000 * (a + b + c + d), a + b + c + d, low, 0x1000000);
  }

  method PopcountScalar(s: seq<bv8>, address: nat) returns (bits: nat)
    ensures bits == Ones(s)
  {
    hide OnesOf, ColumnSum;
    bits := 0;
    var i := 0;
    while (address + i) % 4 != 0 && i < |s|
      invariant i <= |s| && bits == Ones(s[..i])
      decreases |s| - i
    {
      OnesStep(s, i);
      bits := bits + OnesOf(s[i]);
      i := i + 1;
    }
    while |s| - i >= 28
      invariant i <= |s| && bits == Ones(s[..i])
    {
      var sum := SevenWords(s, i);
      bits := bits + ColumnSum(sum);
      i := i + 28;
    }
    while i < |s|
      invariant i <= |s| && bits == Ones(s[..i])
    {
      OnesStep(s, i);
      bits := bits + OnesOf(s[i]);
      i := i + 1;
    }
    assert s[..i] == s;
  }

  /** Ones in the bytes i, i+4, ..., i+4(k-1). */
  ghost function Column(s: seq<bv8>, i: nat, k: nat): (n: nat)
    requires i + 4 * k <= |s| + 3
    ensures n <= 8 * k
  {
    if k == 0 then 0 else Column(s, i, k - 1) + OnesOf(s[i + 4 * (k - 1)])
  }

  /** `sum` holds the column sums of the k words from s[i] on. */
  ghost predicate SumsWords(s: seq<bv8>, i: nat, k: nat, sum: nat)
    requires i + 4 * k <= |s|
  {
    && sum == Column(s, i, k) + 0x100 * Column(s, i + 1, k) + 0x10000 * Column(s, i + 2, k) + 0x1000000 * Column(s, i + 3, k)
    && Ones(s[..i + 4 * k]) ==
       Ones(s[..i]) + Column(s, i, k) + Column(s, i + 1, k) + Column(s, i + 2, k) + Column(s, i + 3, k)
  }

  /** Adds the next folded word to the sum. */
  method AddWord(s: seq<bv8>, ghost i: nat, at: nat, ghost k: nat, sum: nat) returns (sum': nat)
    requires at == i + 4 * k && at + 4 <= |s| && SumsWords(s, i, k, sum)
    ensures SumsWords(s, i, k + 1, sum')
  {
    hide OnesOf, Ones;
    var aux := LoadFolded(s, at);
    OnesOfFour(s, at);
    sum' := sum + aux;
  }

  method SevenWords(s: seq<bv8>, i: nat) returns (sum: nat)
    requires i + 28 <= |s|
    ensures Ones(s[..i]) + ColumnSum(sum) == Ones(s[..i + 28])
  {
    hide OnesOf, Ones, ColumnSum, Column;
    assert SumsWords(s, i, 0, 0) by { NoWords(s, i); }
    sum := 0;
    sum := AddWord(s, i, i + 0, 0, sum);
    sum := AddWord(s, i, i + 4, 1, sum);
    sum := AddWord(s, i, i + 8, 2, sum);
    sum := AddWord(s, i, i + 12, 3, sum);
    sum := AddWord(s, i, i + 16, 4, sum);
    sum := AddWord(s, i, i + 20, 5, sum);
    sum := AddWord(s, i, i + 24, 6, sum);
    ColumnSumExact(Column(s, i, 7), Column(s, i + 1, 7), Column(s, i + 2, 7), Column(s, i + 3, 7));
  }

  lemma NoWords(s: seq<bv8>, i: nat)
    requires i <= |s|
    ensures SumsWords(s, i, 0, 0)
  {
    hide Ones;
  }

  // --------------------------------------------------------- AVX2 kernel

  type Vector = v: seq<bv8> | |v| == 32 witness seq(32, _ => 0)

  /** One lane of the in-register lookup table. */
  function Lookup(x: bv8): bv8 {
    var n := x & 0x0F;
    if n == 0 then 0
    else if n == 1 || n == 2 || n == 4 || n == 8 then 1
    else if n == 3 || n == 5 || n == 6 || n == 9 || n == 0xA || n == 0xC then 2
    else if n == 0xF then 4 else 3
  }

  function Low(b: bv8): bv8 { b & 0x0F }
  function ShiftedByte(b: bv8, neighbour: bv8): bv8 { (b >> 4) | (neighbour << 4) }
  function Add8(x: bv8, y: bv8): bv8 { x + y }

  function AndMask(v: Vector): (r: Vector)
    ensures forall j :: 0 <= j < 32 ==> r[j] == Low(v[j])
  {
    seq(32, j requires 0 <= j < 32 => Low(v[j]))
  }

  function Neighbour(v: Vector, j: nat): bv8
    requires j < 32
  {
    if j % 2 == 0 then v[j + 1] else 0
  }

  /** Shift of sixteen-bit lanes: an even byte takes in bits of its neighbour. */
  function ShiftLanes(v: Vector): (r: Vector)
    ensures forall j :: 0 <= j < 32 ==> r[j] == ShiftedByte(v[j], Neighbour(v, j))
  {
    seq(32, j requires 0 <= j < 32 => ShiftedByte(v[j], Neighbour(v, j)))
  }

  function Shuffle(v: Vector): (r: Vector)
    ensures forall j :: 0 <= j < 32 ==> r[j] == Lookup(v[j])
  {
    seq(32, j requires 0 <= j < 32 => Lookup(v[j]))
  }

  function AddLanes(v: Vector, w: Vector): (r: Vector)
    ensures forall j :: 0 <= j < 32 ==> r[j] == Add8(v[j], w[j])
  {
    seq(32, j requires 0 <= j < 32 => Add8(v[j], w[j]))
  }

  function Zero(): (r: Vector)
    ensures forall j :: 0 <= j < 32 ==> r[j] == 0
  {
    seq(32, _ => 0)
  }

  /** One round: the ones of 32 bytes are added to 32 wrapping byte lanes. */
  function Round(local: Vector, vec: Vector): (r: Vector) {
    var lo := AndMask(vec);
    var hi := AndMask(ShiftLanes(vec));
    AddLanes(AddLanes(local, Shuffle(lo)), Shuffle(hi))
  }

  function LaneSum(v: seq<bv8>): nat {
    if v == [] then 0 else LaneSum(v[..|v| - 1]) + v[|v| - 1] as int
  }

  /** Sum of absolute differences with zero: one sum for every eight lanes. */
  function Sad(v: Vector): (nat, nat, nat, nat) {
    (LaneSum(v[0..8]), LaneSum(v[8..16]), LaneSum(v[16..24]), LaneSum(v[24..32]))
  }

  lemma {:induction false} LaneSumSplit(v: seq<bv8>, w: seq<bv8>)
    ensures LaneSum(v + w) == LaneSum(v) + LaneSum(w)
  {
    if w == [] {
      assert v + w == v;
    } else {
      LaneSumSplit(v, w[..|w| - 1]);
      assert (v + w)[..|v + w| - 1] == v + w[..|w| - 1];
    }
  }

  lemma SadTotal(v: Vector)
    ensures Sad(v).0 + Sad(v).1 + Sad(v).2 + Sad(v).3 == LaneSum(v)
  {
    LaneSumSplit(v[0..8], v[8..16]);
    LaneSumSplit(v[0..8] + v[8..16], v[16..24]);
    LaneSumSplit(v[0..8] + v[8..16] + v[16..24], v[24..32]);
    assert v[0..8] + v[8..16] + v[16..24] + v[24..32] == v;
  }

  lemma RoundLane(local: bv8, b: bv8, neighbour: bv8)
    requires local <= 56
    ensures Add8(Add8(local, Lookup(Low(b))), Lookup(Low(ShiftedByte(b, neighbour)))) as int == local as int + OnesOf(b)
  {
    hide OnesOf;
    LookupsAreOnes(local, b, neighbour);
    FoldByteValue(b);
    AddSmall(local, FoldByte(b));
  }

  lemma LookupsAreOnes(local: bv8, b: bv8, neighbour: bv8)
    ensures Add8(Add8(local, Lookup(Low(b))), Lookup(Low(ShiftedByte(b, neighbour)))) == local + FoldByte(b)
    ensures FoldByte(b) <= 8
  {
    hide Lookup, Low, ShiftedByte, FoldByte;
    ShiftedLow(b, neighbour);
    NibbleLookups(b);
    BitVectors.AddThree(local, Lookup(Low(b)), Lookup(b >> 4));
  }

  lemma ShiftedLow(b: bv8, neighbour: bv8)
    ensures Low(ShiftedByte(b, neighbour)) == b >> 4
  {
  }

  lemma NibbleLookups(b: bv8)
    ensures Lookup(Low(b)) + Lookup(b >> 4) == FoldByte(b)
    ensures FoldByte(b) <= 8
  {
  }

  lemma AddSmall(x: bv8, y: bv8)
    requires x <= 56 && y <= 8
    ensures (x + y) as int == x as int + y as int <= 64
  {
  }

  ghost predicate LanesAtMost(v: Vector, bound: int) {
    forall j :: 0 <= j < 32 ==> v[j] as int <= bound
  }

  /** At most eight rounds keep every byte lane exact, at most 64. */
  lemma RoundExact(local: Vector, vec: Vector, rounds: nat)
    requires rounds < 8 && LanesAtMost(local, 8 * rounds)
    ensures LanesAtMost(Round(local, vec), 8 * rounds + 8)
    ensures LaneSum(Round(local, vec)) == LaneSum(local) + Ones(vec)
  {
    hide OnesOf, Round, LaneSum, Ones;
    var r := Round(local, vec);
    forall j | 0 <= j < 32 ensures r[j] as int == local[j] as int + OnesOf(vec[j]) {
      RoundAt(local, vec, j);
    }
    LaneSumAdds(r, local, vec, 32);
    assert r[..32] == r && local[..32] == local && vec[..32] == vec;
  }

  lemma RoundAt(local: Vector, vec: Vector, j: nat)
    requires j < 32 && local[j] as int <= 56
    ensures Round(local, vec)[j] as int == local[j] as int + OnesOf(vec[j])
  {
    hide OnesOf, Lookup, ShiftedByte, Round, Low, Add8;
    RoundIs(local, vec, j);
    SmallLane(local[j]);
    RoundLane(local[j], vec[j], Neighbour(vec, j));
  }

  lemma RoundIs(local: Vector, vec: Vector, j: nat)
    requires j < 32
    ensures Round(local, vec)[j] ==
            Add8(Add8(local[j], Lookup(Low(vec[j]))), Lookup(Low(ShiftedByte(vec[j], Neighbour(vec, j)))))
  {
    hide Lookup, ShiftedByte, Low, Add8, AndMask, ShiftLanes, Shuffle, AddLanes;
  }

  lemma SmallLane(x: bv8)
    ensures x as int <= 56 ==> x <= 56
  {
  }

  lemma {:induction false} LaneSumAdds(r: Vector, local: Vector, vec: Vector, n: nat)
    requires n <= 32
    requires forall j :: 0 <= j < n ==> r[j] as int == local[j] as int + OnesOf(vec[j])
    ensures LaneSum(r[..n]) == LaneSum(local[..n]) + Ones(vec[..n])
  {
    hide OnesOf;
    if n > 0 {
      LaneSumAdds(r, local, vec, n - 1);
      assert r[..n][..n - 1] == r[..n - 1] && local[..n][..n - 1] == local[..n - 1] && vec[..n][..n - 1] == vec[..n - 1];
    }
  }

  lemma {:induction false} LaneSumZero(n: nat)
    requires n <= 32
    ensures LaneSum(Zero()[..n]) == 0
  {
    if n > 0 {
      LaneSumZero(n - 1);
      assert Zero()[..n][..n - 1] == Zero()[..n - 1];
    }
  }

  lemma ZeroLane()
    ensures 0 as bv8 as int == 0
  {
  }

  /** Up to eight rounds over consecutive 32-byte blocks. */
  method Rounds(s: seq<bv8>, start: nat, n: nat) returns (local: Vector)
    requires start + 32 * n <= |s| && n <= 8
    ensures LaneSum(local) == Ones(s[start..start + 32 * n])
  {
    hide Round, LaneSum, Ones;
    local := Zero();
    LaneSumZero(32);
    assert Zero()[..32] == Zero();
    assert s[start..start] == [];
    OnesEmpty();
    ZeroLane();
    var k := 0;
    while k < n
      invariant k <= n && LanesAtMost(local, 8 * k)
      invariant LaneSum(local) == Ones(s[start..start + 32 * k])
    {
      var i := start + 32 * k;
      RoundExact(local, s[i..i + 32], k);
      OnesSplit(s[start..i], s[i..i + 32]);
      assert s[start..i] + s[i..i + 32] == s[start..i + 32];
      local := Round(local, s[i..i + 32]);
      k := k + 1;
    }
  }

  method PopcountAvx2(s: seq<bv8>) returns (bits: nat)
    ensures bits == Ones(s)
  {
    hide OnesOf, LaneSum, Sad, Ones;
    var i := 0;
    assert s[..0] == [];
    OnesEmpty();
    var a0, a1, a2, a3 := 0, 0, 0, 0;
    while i + 8 * 32 <= |s|
      invariant 0 <= i <= |s| && a0 + a1 + a2 + a3 == Ones(s[..i])
    {
      var local := Rounds(s, i, 8);
      var sad := Sad(local);
      SadTotal(local);
      OnesSplit(s[..i], s[i..i + 256]);
      assert s[..i] + s[i..i + 256] == s[..i + 256];
      a0, a1, a2, a3 := a0 + sad.0, a1 + sad.1, a2 + sad.2, a3 + sad.3;
      i := i + 256;
    }
    var blocks := (|s| - i) / 32;
    var local := Rounds(s, i, blocks);
    var sad := Sad(local);
    SadTotal(local);
    OnesSplit(s[..i], s[i..i + 32 * blocks]);
    assert s[..i] + s[i..i + 32 * blocks] == s[..i + 32 * blocks];
    a0, a1, a2, a3 := a0 + sad.0, a1 + sad.1, a2 + sad.2, a3 + sad.3;
    i := i + 32 * blocks;
    bits := a0 + a1 + a2 + a3;
    while i < |s|
      invariant i <= |s| && bits == Ones(s[..i])
    {
      OnesStep(s, i);
      bits := bits + OnesOf(s[i]);
      i := i + 1;
    }
    assert s[..i] == s;
  }

  method ServerPopcount(s: seq<bv8>, address: nat, avx2: bool) returns (bits: nat)
    ensures bits == CountBits(s, 0, 8 * |s|)
  {
    OnesIsCountBits(s);
    if |s| >= 32 && avx2 {
      bits := PopcountAvx2(s);
    } else {
      bits := PopcountScalar(s, address);
    }
  }
}
