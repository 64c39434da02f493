/** BITOP: AND, OR, XOR and NOT over strings of different lengths
    (src/bitops.c). */
module BitOp {
  import opened Common
  import opened Bits
  import opened BitValue
  import BitVectors

  datatype Op = AND | OR | XOR | NOT

  // ------------------------------------------------------- specification

  function Apply8(op: Op, x: bv8, y: bv8): bv8 {
    match op
    case AND => x & y
    case OR => x | y
    case XOR => x ^ y
    case NOT => !x
  }

  /** Byte j of the first n strings combined from left to right, each string
      extended with zeros. */
  function FoldBytes(op: Op, src: seq<seq<bv8>>, j: nat, n: nat): bv8
    requires 1 <= n <= |src|
  {
    if n == 1 then Padded(src[0], j) else Apply8(op, FoldBytes(op, src, j, n - 1), Padded(src[n - 1], j))
  }

  function ResultByte(op: Op, src: seq<seq<bv8>>, j: nat): bv8
    requires |src| >= 1
  {
    if op == NOT then Apply8(NOT, Padded(src[0], j), 0) else FoldBytes(op, src, j, |src|)
  }

  function MaxLength(src: seq<seq<bv8>>): nat {
    if src == [] then 0
    else
      var m, l := MaxLength(src[..|src| - 1]), |src[|src| - 1]|;
      if l > m then l else m
  }

  /** The number of strings whose padded bit i is set. */
  function Votes(src: seq<seq<bv8>>, i: nat, n: nat): nat
    requires n <= |src|
  {
    if n == 0 then 0 else Votes(src, i, n - 1) + Val(PaddedBit(src[n - 1], i))
  }

  lemma {:induction false} VotesBound(src: seq<seq<bv8>>, i: nat, n: nat)
    requires n <= |src|
    ensures Votes(src, i, n) <= n
  {
    hide PaddedBit;
    if n > 0 {
      VotesBound(src, i, n - 1);
    }
  }

  lemma AndBit(x: bv8, y: bv8, k: nat)
    requires k < 8
    ensures BitOf(Apply8(AND, x, y), k) == (BitOf(x, k) && BitOf(y, k))
  {
  }

  lemma OrBit(x: bv8, y: bv8, k: nat)
    requires k < 8
    ensures BitOf(Apply8(OR, x, y), k) == (BitOf(x, k) || BitOf(y, k))
  {
  }

  lemma XorBit(x: bv8, y: bv8, k: nat)
    requires k < 8
    ensures BitOf(Apply8(XOR, x, y), k) == (BitOf(x, k) != BitOf(y, k))
  {
    BitVectors.XorMask(x, y, Mask(k));
  }

  /** What the bytewise fold means for each bit: set in all, in some, in an
      odd number of the strings. */
  lemma {:induction false} FoldMeaning(op: Op, src: seq<seq<bv8>>, j: nat, k: nat, n: nat)
    requires 1 <= n <= |src| && k < 8
    ensures op == AND ==> (BitOf(FoldBytes(op, src, j, n), k) <==> Votes(src, 8 * j + k, n) == n)
    ensures op == OR ==> (BitOf(FoldBytes(op, src, j, n), k) <==> Votes(src, 8 * j + k, n) > 0)
    ensures op == XOR ==> (BitOf(FoldBytes(op, src, j, n), k) <==> Votes(src, 8 * j + k, n) % 2 == 1)
    decreases n
  {
    hide Apply8, BitOf, PaddedBit, Padded;
    var i := 8 * j + k;
    PaddedBitIs(src[n - 1], j, k);
    if n == 1 {
      assert Votes(src, i, 0) == 0;
    } else {
      FoldMeaning(op, src, j, k, n - 1);
      AndBit(FoldBytes(op, src, j, n - 1), Padded(src[n - 1], j), k);
      OrBit(FoldBytes(op, src, j, n - 1), Padded(src[n - 1], j), k);
      XorBit(FoldBytes(op, src, j, n - 1), Padded(src[n - 1], j), k);
      VotesBound(src, i, n - 1);
    }
  }

  lemma NotBit(x: bv8, k: nat)
    requires k < 8
    ensures BitOf(Apply8(NOT, x, 0), k) == !BitOf(x, k)
  {
  }

  /** Every bit of the result, in terms of the bits of the inputs. */
  lemma ResultMeaning(op: Op, src: seq<seq<bv8>>, j: nat, k: nat)
    requires 1 <= |src| && k < 8
    ensures var votes := Votes(src, 8 * j + k, |src|);
            BitOf(ResultByte(op, src, j), k) <==>
            match op
            case AND => votes == |src|
            case OR => votes > 0
            case XOR => votes % 2 == 1
            case NOT => !PaddedBit(src[0], 8 * j + k)
  {
    hide Apply8, BitOf, PaddedBit, Padded, FoldBytes, Votes;
    FoldMeaning(op, src, j, k, |src|);
    NotBit(Padded(src[0], j), k);
    PaddedBitIs(src[0], j, k);
  }

  lemma PaddedBitIs(s: seq<bv8>, j: nat, k: nat)
    requires k < 8
    ensures PaddedBit(s, 8 * j + k) == BitOf(Padded(s, j), k)
  {
    hide BitOf;
    BitFromByte(s, j, 0, k);
    assert BitOf(0, k) == false by { ZeroBit(k); }
  }

  lemma ZeroBit(k: nat)
    requires k < 8
    ensures !BitOf(0, k)
  {
  }

  // --------------------------------------------------------- machine words

  // An operation on a 64-bit word is the operation on each of its bytes.

  method AndWord(a0: bv8, a1: bv8, a2: bv8, a3: bv8, a4: bv8, a5: bv8, a6: bv8, a7: bv8,
                 b0: bv8, b1: bv8, b2: bv8, b3: bv8, b4: bv8, b5: bv8, b6: bv8, b7: bv8)
    returns (c0: bv8, c1: bv8, c2: bv8, c3: bv8, c4: bv8, c5: bv8, c6: bv8, c7: bv8)
    ensures c0 == Apply8(AND, a0, b0) && c1 == Apply8(AND, a1, b1)
    ensures c2 == Apply8(AND, a2, b2) && c3 == Apply8(AND, a3, b3)
    ensures c4 == Apply8(AND, a4, b4) && c5 == Apply8(AND, a5, b5)
    ensures c6 == Apply8(AND, a6, b6) && c7 == Apply8(AND, a7, b7)
  {
    var x := (a0 as bv64) | ((a1 as bv64) << 8) | ((a2 as bv64) << 16) | ((a3 as bv64) << 24) |
             ((a4 as bv64) << 32) | ((a5 as bv64) << 40) | ((a6 as bv64) << 48) | ((a7 as bv64) << 56);
    var y := (b0 as bv64) | ((b1 as bv64) << 8) | ((b2 as bv64) << 16) | ((b3 as bv64) << 24) |
             ((b4 as bv64) << 32) | ((b5 as bv64) << 40) | ((b6 as bv64) << 48) | ((b7 as bv64) << 56);
    x := x & y;
    c0, c1, c2, c3 := (x & 0xFF) as bv8, ((x >> 8) & 0xFF) as bv8, ((x >> 16) & 0xFF) as bv8, ((x >> 24) & 0xFF) as bv8;
    c4, c5 := ((x >> 32) & 0xFF) as bv8, ((x >> 40) & 0xFF) as bv8;
    c6, c7 := ((x >> 48) & 0xFF) as bv8, ((x >> 56) & 0xFF) as bv8;
  }

  method OrWord(a0: bv8, a1: bv8, a2: bv8, a3: bv8, a4: bv8, a5: bv8, a6: bv8, a7: bv8,
                 b0: bv8, b1: bv8, b2: bv8, b3: bv8, b4: bv8, b5: bv8, b6: bv8, b7: bv8)
    returns (c0: bv8, c1: bv8, c2: bv8, c3: bv8, c4: bv8, c5: bv8, c6: bv8, c7: bv8)
    ensures c0 == Apply8(OR, a0, b0) && c1 == Apply8(OR, a1, b1)
    ensures c2 == Apply8(OR, a2, b2) && c3 == Apply8(OR, a3, b3)
    ensures c4 == Apply8(OR, a4, b4) && c5 == Apply8(OR, a5, b5)
    ensures c6 == Apply8(OR, a6, b6) && c7 == Apply8(OR, a7, b7)
  {
    var x := (a0 as bv64) | ((a1 as bv64) << 8) | ((a2 as bv64) << 16) | ((a3 as bv64) << 24) |
             ((a4 as bv64) << 32) | ((a5 as bv64) << 40) | ((a6 as bv64) << 48) | ((a7 as bv64) << 56);
    var y := (b0 as bv64) | ((b1 as bv64) << 8) | ((b2 as bv64) << 16) | ((b3 as bv64) << 24) |
             ((b4 as bv64) << 32) | ((b5 as bv64) << 40) | ((b6 as bv64) << 48) | ((b7 as bv64) << 56);
    x := x | y;
    c0, c1, c2, c3 := (x & 0xFF) as bv8, ((x >> 8) & 0xFF) as bv8, ((x >> 16) & 0xFF) as bv8, ((x >> 24) & 0xFF) as bv8;
    c4, c5 := ((x >> 32) & 0xFF) as bv8, ((x >> 40) & 0xFF) as bv8;
    c6, c7 := ((x >> 48) & 0xFF) as bv8, ((x >> 56) & 0xFF) as bv8;
  }

  method XorWord(a0: bv8, a1: bv8, a2: bv8, a3: bv8, a4: bv8, a5: bv8, a6: bv8, a7: bv8,
                 b0: bv8, b1: bv8, b2: bv8, b3: bv8, b4: bv8, b5: bv8, b6: bv8, b7: bv8)
    returns (c0: bv8, c1: bv8, c2: bv8, c3: bv8, c4: bv8, c5: bv8, c6: bv8, c7: bv8)
    ensures c0 == Apply8(XOR, a0, b0) && c1 == Apply8(XOR, a1, b1)
    ensures c2 == Apply8(XOR, a2, b2) && c3 == Apply8(XOR, a3, b3)
    ensures c4 == Apply8(XOR, a4, b4) && c5 == Apply8(XOR, a5, b5)
    ensures c6 == Apply8(XOR, a6, b6) && c7 == Apply8(XOR, a7, b7)
  {
    var x := (a0 as bv64) | ((a1 as bv64) << 8) | ((a2 as bv64) << 16) | ((a3 as bv64) << 24) |
             ((a4 as bv64) << 32) | ((a5 as bv64) << 40) | ((a6 as bv64) << 48) | ((a7 as bv64) << 56);
    var y := (b0 as bv64) | ((b1 as bv64) << 8) | ((b2 as bv64) << 16) | ((b3 as bv64) << 24) |
             ((b4 as bv64) << 32) | ((b5 as bv64) << 40) | ((b6 as bv64) << 48) | ((b7 as bv64) << 56);
    x := x ^ y;
    c0, c1, c2, c3 := (x & 0xFF) as bv8, ((x >> 8) & 0xFF) as bv8, ((x >> 16) & 0xFF) as bv8, ((x >> 24) & 0xFF) as bv8;
    c4, c5 := ((x >> 32) & 0xFF) as bv8, ((x >> 40) & 0xFF) as bv8;
    c6, c7 := ((x >> 48) & 0xFF) as bv8, ((x >> 56) & 0xFF) as bv8;
  }

  method NotWord(a0: bv8, a1: bv8, a2: bv8, a3: bv8, a4: bv8, a5: bv8, a6: bv8, a7: bv8)
    returns (c0: bv8, c1: bv8, c2: bv8, c3: bv8, c4: bv8, c5: bv8, c6: bv8, c7: bv8)
    ensures c0 == Apply8(NOT, a0, 0) && c1 == Apply8(NOT, a1, 0)
    ensures c2 == Apply8(NOT, a2, 0) && c3 == Apply8(NOT, a3, 0)
    ensures c4 == Apply8(NOT, a4, 0) && c5 == Apply8(NOT, a5, 0)
    ensures c6 == Apply8(NOT, a6, 0) && c7 == Apply8(NOT, a7, 0)
  {
    var x := (a0 as bv64) | ((a1 as bv64) << 8) | ((a2 as bv64) << 16) | ((a3 as bv64) << 24) |
             ((a4 as bv64) << 32) | ((a5 as bv64) << 40) | ((a6 as bv64) << 48) | ((a7 as bv64) << 56);
    x := !x;
    c0, c1, c2, c3 := (x & 0xFF) as bv8, ((x >> 8) & 0xFF) as bv8, ((x >> 16) & 0xFF) as bv8, ((x >> 24) & 0xFF) as bv8;
    c4, c5 := ((x >> 32) & 0xFF) as bv8, ((x >> 40) & 0xFF) as bv8;
    c6, c7 := ((x >> 48) & 0xFF) as bv8, ((x >> 56) & 0xFF) as bv8;
  }

  function ApplyBlock(op: Op, a: seq<bv8>, b: seq<bv8>): seq<bv8>
    requires |a| == 8 && |b| == 8
  {
    [Apply8(op, a[0], b[0]), Apply8(op, a[1], b[1]), Apply8(op, a[2], b[2]), Apply8(op, a[3], b[3]),
     Apply8(op, a[4], b[4]), Apply8(op, a[5], b[5]), Apply8(op, a[6], b[6]), Apply8(op, a[7], b[7])]
  }

  lemma ApplyBlockAt(op: Op, a: seq<bv8>, b: seq<bv8>)
    requires |a| == 8 && |b| == 8
    ensures |ApplyBlock(op, a, b)| == 8
    ensures forall k :: 0 <= k < 8 ==> ApplyBlock(op, a, b)[k] == Apply8(op, a[k], b[k])
  {
    hide Apply8;
  }

  method BlockOp(op: Op, a: seq<bv8>, b: seq<bv8>) returns (c: seq<bv8>)
    requires |a| == 8 && |b| == 8
    ensures c == ApplyBlock(op, a, b)
  {
    hide Apply8;
    var c0, c1, c2, c3, c4, c5, c6, c7;
    match op {
      case AND =>
        c0, c1, c2, c3, c4, c5, c6, c7 :=
          AndWord(a[0], a[1], a[2], a[3], a[4], a[5], a[6], a[7],
                b[0], b[1], b[2], b[3], b[4], b[5], b[6], b[7]);
      case OR =>
        c0, c1, c2, c3, c4, c5, c6, c7 :=
          OrWord(a[0], a[1], a[2], a[3], a[4], a[5], a[6], a[7],
                b[0], b[1], b[2], b[3], b[4], b[5], b[6], b[7]);
      case XOR =>
        c0, c1, c2, c3, c4, c5, c6, c7 :=
          XorWord(a[0], a[1], a[2], a[3], a[4], a[5], a[6], a[7],
                b[0], b[1], b[2], b[3], b[4], b[5], b[6], b[7]);
      case NOT =>
        c0, c1, c2, c3, c4, c5, c6, c7 := NotWord(a[0], a[1], a[2], a[3], a[4], a[5], a[6], a[7]);
        NotIgnoresSecond();
    }
    c := [c0, c1, c2, c3, c4, c5, c6, c7];
  }

  /** One word of the destination combined with one word of a source. */
  method WordStep(op: Op, res: array<bv8>, at: nat, src: seq<bv8>)
    requires at + 8 <= res.Length && at + 8 <= |src|
    modifies res
    ensures forall b :: at <= b < at + 8 ==> res[b] == Apply8(op, old(res[b]), src[b])
    ensures forall b :: 0 <= b < res.Length && !(at <= b < at + 8) ==> res[b] == old(res[b])
  {
    hide Apply8;
    var c := BlockOp(op, res[at..at + 8], src[at..at + 8]);
    ApplyBlockAt(op, res[at..at + 8], src[at..at + 8]);
    hide ApplyBlock;
    forall b | at <= b < at + 8 {
      res[b] := c[b - at];
    }
  }

  /** Four words at a time, as the fast path does. */
  method FourWords(op: Op, res: array<bv8>, at: nat, src: seq<bv8>)
    requires at + 32 <= res.Length && at + 32 <= |src|
    modifies res
    ensures forall b :: at <= b < at + 32 ==> res[b] == Apply8(op, old(res[b]), src[b])
    ensures forall b :: 0 <= b < res.Length && !(at <= b < at + 32) ==> res[b] == old(res[b])
  {
    hide Apply8;
    WordStep(op, res, at, src);
    WordStep(op, res, at + 8, src);
    WordStep(op, res, at + 16, src);
    WordStep(op, res, at + 24, src);
  }

  /** The fast path: handles whole 32-byte blocks that all strings have, and
      returns the index of the next byte to process. */
  method FastPath(op: Op, src: seq<seq<bv8>>, res: array<bv8>, minlen: nat) returns (j: nat)
    requires 1 <= |src| && (op == NOT ==> |src| == 1) && minlen <= res.Length
    requires forall i :: 0 <= i < |src| ==> minlen <= |src[i]|
    modifies res
    ensures j <= minlen
    ensures forall b :: 0 <= b < j ==> res[b] == ResultByte(op, src, b)
  {
    hide Apply8;
    for b := 0 to minlen
      invariant forall k :: 0 <= k < b ==> res[k] == src[0][k]
    {
      res[b] := src[0][b];
    }
    j := 0;
    while minlen - j >= 32
      invariant 0 <= j <= minlen
      invariant forall b :: 0 <= b < j ==> res[b] == ResultByte(op, src, b)
      invariant forall b :: j <= b < minlen ==> res[b] == src[0][b]
    {
      if op == NOT {
        FourWords(op, res, j, src[0]);
        NotIgnoresSecond();
      } else {
        for i := 1 to |src|
          invariant forall b :: 0 <= b < j ==> res[b] == ResultByte(op, src, b)
          invariant forall b :: j <= b < j + 32 ==> res[b] == FoldBytes(op, src, b, i)
          invariant forall b :: j + 32 <= b < minlen ==> res[b] == src[0][b]
        {
          FourWords(op, res, j, src[i]);
        }
      }
      j := j + 32;
    }
  }

  lemma NotIgnoresSecond()
    ensures forall x, y {:trigger Apply8(NOT, x, y)} :: Apply8(NOT, x, y) == Apply8(NOT, x, 0)
  {
  }

  /** One byte of the result, stopping early once it can no longer change. */
  method SlowByte(op: Op, src: seq<seq<bv8>>, j: nat) returns (output: bv8)
    requires 1 <= |src| && (op == NOT ==> |src| == 1)
    ensures output == ResultByte(op, src, j)
  {
    hide Apply8;
    output := if |src[0]| <= j then 0 else src[0][j];
    if op == NOT {
      output := Apply8(NOT, output, 0);
      return;
    }
    var i := 1;
    while i < |src|
      invariant 1 <= i <= |src| && output == FoldBytes(op, src, j, i)
    {
      var byte := if |src[i]| <= j then 0 else src[i][j];
      output := Apply8(op, output, byte);
      if (op == AND && output == 0) || (op == OR && output == 0xFF) {
        Absorbed(op, src, j, i + 1, |src|);
        return;
      }
      i := i + 1;
    }
  }

  /** Zero absorbs every further AND, all ones every further OR. */
  lemma {:induction false} Absorbed(op: Op, src: seq<seq<bv8>>, j: nat, i: nat, n: nat)
    requires 1 <= i <= n <= |src|
    requires (op == AND && FoldBytes(op, src, j, i) == 0) || (op == OR && FoldBytes(op, src, j, i) == 0xFF)
    ensures FoldBytes(op, src, j, n) == FoldBytes(op, src, j, i)
    decreases n
  {
    hide Apply8, Padded;
    if i < n {
      Absorbed(op, src, j, i, n - 1);
      AbsorbedByte(Padded(src[n - 1], j));
    }
  }

  lemma AbsorbedByte(y: bv8)
    ensures Apply8(AND, 0, y) == 0 && Apply8(OR, 0xFF, y) == 0xFF
  {
  }

  datatype Reply = SingleKeyOnly | Deleted | Stored(value: seq<bv8>)

  function Contents(keys: seq<Option<seq<bv8>>>): seq<seq<bv8>> {
    seq(|keys|, i requires 0 <= i < |keys| => if keys[i].Some? then keys[i].value else [])
  }

  method BitOpCommand(op: Op, keys: seq<Option<seq<bv8>>>, alignedAccess: bool) returns (reply: Reply)
    requires 1 <= |keys|
    ensures reply == SingleKeyOnly <==> op == NOT && |keys| != 1
    ensures reply == Deleted ==> MaxLength(Contents(keys)) == 0
    ensures reply.Stored? ==>
              && |reply.value| == MaxLength(Contents(keys)) > 0
              && forall j :: 0 <= j < |reply.value| ==> reply.value[j] == ResultByte(op, Contents(keys), j)
  {
    hide Apply8;
    if op == NOT && |keys| != 1 {
      return SingleKeyOnly;
    }
    var src := Contents(keys);
    var maxlen, minlen := Lengths(keys);
    if maxlen == 0 {
      return Deleted;
    }
    var res := new bv8[maxlen](_ => 0);
    var j := 0;
    if !alignedAccess && minlen >= 32 && |keys| <= 16 {
      j := FastPath(op, src, res, minlen);
    }
    while j < maxlen
      invariant j <= maxlen
      invariant forall b :: 0 <= b < j ==> res[b] == ResultByte(op, src, b)
    {
      var output := SlowByte(op, src, j);
      res[j] := output;
      j := j + 1;
    }
    reply := Stored(res[..]);
  }

  /** The longest length, and a length that every string has at least; a
      missing key forces the latter to zero for good. */
  method Lengths(keys: seq<Option<seq<bv8>>>) returns (maxlen: nat, minlen: nat)
    requires 1 <= |keys|
    ensures maxlen == MaxLength(Contents(keys)) && minlen <= maxlen
    ensures forall i :: 0 <= i < |keys| ==> minlen <= |Contents(keys)[i]|
  {
    maxlen, minlen := 0, 0;
    var src := Contents(keys);
    var j := 0;
    while j < |keys|
      invariant j <= |keys| && minlen <= maxlen
      invariant maxlen == MaxLength(src[..j])
      invariant forall i :: 0 <= i < j ==> minlen <= |src[i]|
      invariant j == 0 ==> minlen == 0
    {
      assert src[..j + 1][..j] == src[..j];
      if keys[j].None? {
        minlen := 0;
      } else {
        var len := |keys[j].value|;
        if len > maxlen { maxlen := len; }
        if j == 0 || len < minlen { minlen := len; }
      }
      j := j + 1;
    }
    assert src[..j] == src;
  }
}
