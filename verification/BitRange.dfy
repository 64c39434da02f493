/** The BITCOUNT and BITPOS commands over whole strings, byte ranges and bit
    ranges (src/bitops.c). */
module BitRange {
  import opened Common
  import opened Bits
  import opened BitPos
  import opened Popcount

  /** The optional range arguments: none, a start, or a start and an end
      counted in bytes or in bits. */
  datatype Range = Whole | From(start: int) | Between(start: int, end: int, bits: bool)

  /** A half-open range of bit positions. */
  datatype Span = Span(lo: nat, hi: nat)

  function FromEnd(i: int, total: nat): int { if i < 0 then total + i else i }
  function AtLeast0(i: int): nat { if i < 0 then 0 else i }
  function Below(i: nat, total: nat): int { if i >= total then total - 1 else i }

  // Both ends of a range over `total` units: negative indexes count from the
  // end, and both ends are clamped.
  function First(total: nat, start: int): nat { AtLeast0(FromEnd(start, total)) }
  function Last(total: nat, end: int): int { Below(AtLeast0(FromEnd(end, total)), total) }

  function ByteSpan(length: nat, start: int, end: int): (r: Span)
    ensures r.lo <= r.hi <= 8 * length
  {
    var first, last := First(length, start), Last(length, end);
    if first > last then Span(0, 0) else Span(8 * first, 8 * (last + 1))
  }

  function BitSpan(length: nat, start: int, end: int): (r: Span)
    ensures r.lo <= r.hi <= 8 * length
  {
    var first, last := First(8 * length, start), Last(8 * length, end);
    if first > last then Span(0, 0) else Span(first, last + 1)
  }

  function BitposSpan(length: nat, range: Range): (r: Span)
    ensures r.lo <= r.hi <= 8 * length
  {
    match range
    case Whole => Span(0, 8 * length)
    case From(start) => ByteSpan(length, start, length - 1)
    case Between(start, end, bits) => if bits then BitSpan(length, start, end) else ByteSpan(length, start, end)
  }

  /** BITCOUNT alone treats a negative range that runs backwards as empty. */
  function BitcountSpan(length: nat, range: Range): (r: Span)
    ensures r.lo <= r.hi <= 8 * length
  {
    match range
    case Between(start, end, _) => if end < start < 0 then Span(0, 0) else BitposSpan(length, range)
    case _ => BitposSpan(length, range)
  }

  /** Bit i of a string is in the range: its unit, a byte or a bit, is at or
      after the start and at or before the end, negative ones counting from the
      end of the string; an end before the string stands for the first unit. */
  ghost predicate InRange(length: nat, range: Range, i: nat) {
    i < 8 * length &&
    match range
    case Whole => true
    case From(start) => (if start >= 0 then start else length + start) <= i / 8
    case Between(start, end, bits) =>
      var total, unit := if bits then 8 * length else length, if bits then i else i / 8;
      && (if start >= 0 then start else total + start) <= unit
      && (unit <= (if end >= 0 then end else total + end) || (unit == 0 && total + end < 0))
  }

  /** The span of a range holds exactly the bits in the range. */
  lemma SpanMeans(length: nat, range: Range, i: nat)
    ensures var r := BitposSpan(length, range); r.lo <= i < r.hi <==> InRange(length, range, i)
  {
    match range
    case Whole =>
    case From(start) => ByteSpanMeans(length, start, length - 1, i);
    case Between(start, end, bits) =>
      if !bits {
        ByteSpanMeans(length, start, end, i);
      }
  }

  /** BITCOUNT counts the same bits, but none for negative ends that run
      backwards. */
  lemma CountSpanMeans(length: nat, range: Range, i: nat)
    ensures var r := BitcountSpan(length, range);
      r.lo <= i < r.hi <==> InRange(length, range, i) && !(range.Between? && range.end < range.start < 0)
  {
    hide InRange, BitposSpan;
    SpanMeans(length, range, i);
  }

  lemma ByteSpanMeans(length: nat, start: int, end: int, i: nat)
    ensures var r := ByteSpan(length, start, end); r.lo <= i < r.hi <==> First(length, start) <= i / 8 <= Last(length, end)
  {
  }

  // ------------------------------------------------------- edge masks

  /** The first k bits of a byte. */
  function HeadMask(k: nat): bv8
    requires k < 8
  {
    if k == 0 then 0 else if k == 1 then 0x80 else if k == 2 then 0xC0 else if k == 3 then 0xE0
    else if k == 4 then 0xF0 else if k == 5 then 0xF8 else if k == 6 then 0xFC else 0xFE
  }

  /** The bits of a byte after bit k. */
  function TailMask(k: nat): bv8
    requires k < 8
  {
    if k == 0 then 0x7F else if k == 1 then 0x3F else if k == 2 then 0x1F else if k == 3 then 0x0F
    else if k == 4 then 0x07 else if k == 5 then 0x03 else if k == 6 then 0x01 else 0
  }

  /** 1 << n */
  function Shifted(n: nat): (r: bv32)
    requires n <= 8
    ensures n == 0 ==> r == 1
    ensures n == 1 ==> r == 2
    ensures n == 2 ==> r == 4
    ensures n == 3 ==> r == 8
    ensures n == 4 ==> r == 16
    ensures n == 5 ==> r == 32
    ensures n == 6 ==> r == 64
    ensures n == 7 ==> r == 128
    ensures n == 8 ==> r == 256
  {
    (1 as bv32) << n
  }

  /** The masks as the commands compute them. */
  function HeadShift(k: nat): (m: bv8)
    requires k < 8
    ensures m == HeadMask(k)
  {
    ShiftedMasks(k);
    Widened(HeadMask(k));
    (!(Shifted(8 - k) - 1) & 0xFF) as bv8
  }

  function TailShift(k: nat): (m: bv8)
    requires k < 8
    ensures m == TailMask(k)
  {
    ShiftedMasks(k);
    Widened(TailMask(k));
    (Shifted(7 - k) - 1) as bv8
  }

  lemma ShiftedMasks(k: nat)
    requires k < 8
    ensures !(Shifted(8 - k) - 1) & 0xFF == HeadMask(k) as bv32
    ensures Shifted(7 - k) - 1 == TailMask(k) as bv32
  {
  }

  lemma Widened(b: bv8)
    ensures (b as bv32) as bv8 == b
  {
  }

  function And8(x: bv8, y: bv8): bv8 { x & y }

  lemma MaskBits(b: bv8, k: nat, i: nat)
    requires k < 8 && i < 8
    ensures BitOf(And8(b, HeadMask(k)), i) <==> BitOf(b, i) && i < k
    ensures BitOf(And8(b, TailMask(k)), i) <==> BitOf(b, i) && i > k
  {
  }

  lemma ClearedBits(b: bv8, k: nat, i: nat)
    requires k < 8 && i < 8
    ensures BitOf(b & !HeadMask(k), i) <==> BitOf(b, i) && i >= k
    ensures BitOf(b & !TailMask(k), i) <==> BitOf(b, i) && i <= k
  {
  }

  lemma FilledBits(b: bv8, k: nat, i: nat)
    requires k < 8 && i < 8
    ensures BitOf(b | HeadMask(k), i) <==> BitOf(b, i) || i < k
    ensures BitOf(b | TailMask(k), i) <==> BitOf(b, i) || i > k
  {
  }

  // --------------------------------------------------------- BITCOUNT

  lemma {:induction false} MaskedOnesUpTo(b: bv8, k: nat, n: nat)
    requires k < 8 && n <= 8
    ensures OnesUpTo(And8(b, HeadMask(k)), n) == OnesUpTo(b, if n < k then n else k)
    ensures OnesUpTo(And8(b, TailMask(k)), n) == if n <= k then 0 else OnesUpTo(b, n) - OnesUpTo(b, k + 1)
    decreases n
  {
    hide BitOf, HeadMask, TailMask, And8;
    if n > 0 {
      MaskedOnesUpTo(b, k, n - 1);
      MaskBits(b, k, n - 1);
    }
  }

  lemma MaskedOnes(b: bv8, k: nat)
    requires k < 8
    ensures OnesOf(And8(b, HeadMask(k))) == OnesUpTo(b, k)
    ensures OnesOf(And8(b, TailMask(k))) == OnesOf(b) - OnesUpTo(b, k + 1)
  {
    hide OnesOf, HeadMask, TailMask, And8, BitOf;
    MaskedOnesUpTo(b, k, 8);
    OnesUpToEight(b);
    OnesUpToEight(And8(b, HeadMask(k)));
    OnesUpToEight(And8(b, TailMask(k)));
  }

  /** The whole bytes around a bit range hold its ones and those of the two
      masked edges. */
  lemma CountEdges(s: seq<bv8>, first: nat, last: nat)
    requires first <= last < 8 * |s|
    ensures CountBits(s, 8 * (first / 8), 8 * (last / 8) + 8) ==
            CountBits(s, first, last + 1) +
            OnesOf(And8(s[first / 8], HeadMask(first % 8))) + OnesOf(And8(s[last / 8], TailMask(last % 8)))
  {
    hide OnesOf, HeadMask, TailMask, And8, CountBits;
    var a, k := first / 8, first % 8;
    var b, l := last / 8, last % 8;
    CountSplit(s, 8 * a, first, 8 * b + 8);
    CountSplit(s, first, last + 1, 8 * b + 8);
    ByteCountUpTo(s, a, k);
    ByteCountUpTo(s, b, l + 1);
    ByteCount(s, b);
    CountSplit(s, 8 * b, last + 1, 8 * b + 8);
    MaskedOnes(s[a], k);
    MaskedOnes(s[b], l);
  }

  lemma CountTwoBytes(x: bv8, y: bv8)
    ensures CountBits([x, y], 0, 16) == OnesOf(x) + OnesOf(y)
  {
    hide OnesOf, CountBits;
    CountSplit([x, y], 0, 8, 16);
    ByteCount([x, y], 0);
    ByteCount([x, y], 1);
  }

  lemma OnesOfZero()
    ensures OnesOf(0) == 0
  {
  }

  method ClampEnds(totlen: nat, start: int, end: int) returns (first: nat, last: int)
    ensures first == First(totlen, start) && last == Last(totlen, end)
    ensures if start >= 0 then first == start else if totlen + start >= 0 then first == totlen + start else first == 0
    ensures last <= totlen - 1
    ensures 0 <= end < totlen ==> last == end
    ensures end >= totlen ==> last == totlen - 1
    ensures end < 0 <= totlen + end ==> last == totlen + end
    ensures totlen + end < 0 < totlen ==> last == 0
  {
    var s, e := start, end;
    if s < 0 { s := totlen + s; }
    if e < 0 { e := totlen + e; }
    if s < 0 { s := 0; }
    if e < 0 { e := 0; }
    if e >= totlen { e := totlen - 1; }
    first, last := s, e;
  }

  /** Negative indexes, clamping, and the bytes and edge masks of a bit range,
      as both commands compute them. */
  method ResolveRange(length: nat, range: Range) returns (start: int, end: int, headMask: bv8, tailMask: bv8)
    ensures var r := BitposSpan(length, range);
            if r.lo == r.hi then start > end
            else
              && 0 <= start == r.lo / 8 && end == (r.hi - 1) / 8 < length && start <= end
              && headMask == HeadMask(r.lo % 8) && tailMask == TailMask((r.hi - 1) % 8)
  {
    hide HeadMask, TailMask, First, Last;
    EdgeMasksZero();
    start, end := 0, length - 1;
    headMask, tailMask := 0, 0;
    if range.Whole? {
      if length > 0 {
        ByteEdges(0);
        ByteEdges(length - 1);
      }
      return;
    }
    start := range.start;
    if range.Between? {
      end := range.end;
    }
    var isbit := range.Between? && range.bits;
    var totlen := length;
    if isbit { totlen := 8 * totlen; }
    start, end := ClampEnds(totlen, start, end);
    if isbit && start <= end {
      headMask := HeadShift(start % 8);
      tailMask := TailShift(end % 8);
      start := start / 8;
      end := end / 8;
    } else if start <= end {
      ByteEdges(start);
      ByteEdges(end);
    }
  }

  lemma ByteEdges(n: nat)
    ensures 8 * n / 8 == n && 8 * n % 8 == 0
    ensures (8 * (n + 1) - 1) / 8 == n && (8 * (n + 1) - 1) % 8 == 7
  {
  }

  /** Counts whole bytes, then takes back the bits outside the range. */
  method CountMasked(p: seq<bv8>, ghost first: nat, ghost last: nat, start: nat, end: nat, headMask: bv8, tailMask: bv8,
                     address: nat, avx2: bool) returns (count: int)
    requires first <= last < 8 * |p| && start == first / 8 && end == last / 8
    requires headMask == HeadMask(first % 8) && tailMask == TailMask(last % 8)
    ensures count == CountBits(p, first, last + 1)
  {
    hide OnesOf, HeadMask, TailMask, And8, CountBits;
    CountSlice(p, start, end + 1);
    CountEdges(p, first, last);
    MaskedByZero(p[start]);
    MaskedByZero(p[end]);
    count := ServerPopcount(p[start..end + 1], address + start, avx2);
    if headMask != 0 || tailMask != 0 {
      var firstlast: seq<bv8> := [0, 0];
      if headMask != 0 { firstlast := firstlast[0 := And8(p[start], headMask)]; }
      if tailMask != 0 { firstlast := firstlast[1 := And8(p[end], tailMask)]; }
      assert firstlast == [And8(p[start], headMask), And8(p[end], tailMask)];
      CountTwoBytes(And8(p[start], headMask), And8(p[end], tailMask));
      var outside := ServerPopcount(firstlast, 0, avx2);
      count := count - outside;
    } else {
      OnesOfZero();
    }
  }

  method BitCount(o: Option<seq<bv8>>, range: Range, address: nat, avx2: bool) returns (reply: int)
    ensures o.None? ==> reply == 0
    ensures o.Some? ==>
              var r := BitcountSpan(|o.value|, range);
              reply == CountBits(o.value, r.lo, r.hi)
  {
    hide HeadMask, TailMask, CountBits;
    var p := if o.Some? then o.value else [];
    ghost var r := BitposSpan(|p|, range);
    CountNothing(p, r.lo);
    CountNothing(p, 0);
    if range.Between? && range.start < 0 && range.end < 0 && range.start > range.end {
      return 0;
    }
    var start, end, headMask, tailMask := ResolveRange(|p|, range);
    if o.None? {
      return 0;
    }
    if start > end {
      reply := 0;
    } else {
      reply := CountMasked(p, r.lo, r.hi - 1, start, end, headMask, tailMask, address, avx2);
    }
  }

  lemma CountNothing(s: seq<bv8>, i: nat)
    requires i <= 8 * |s|
    ensures CountBits(s, i, i) == 0
  {
  }

  lemma EdgeMasksZero()
    ensures HeadMask(0) == 0 && TailMask(7) == 0
  {
  }

  lemma MaskedByZero(b: bv8)
    ensures And8(b, 0) == 0
  {
  }

  // ----------------------------------------------------------- BITPOS

  /** The reply for an existing string: the least position of the range that
      holds the bit; else -1, or the position past the string when looking
      for a zero without an explicit end in a non-empty range. */
  function BitposReply(s: seq<bv8>, bit: bool, range: Range): int {
    var r := BitposSpan(|s|, range);
    if r.lo == r.hi then -1
    else
      var f := FirstBit(s, bit, r.lo, r.hi);
      if f < r.hi then f else if bit || range.Between? then -1 else 8 * |s|
  }

  /** The reply is the least bit of the value in the range; without any it is -1,
      or the position past the string for a zero without an explicit end in a
      range that is not empty. */
  lemma ReplyMeans(s: seq<bv8>, bit: bool, range: Range)
    ensures var p := BitposReply(s, bit, range);
      if exists i :: 0 <= i < 8 * |s| && InRange(|s|, range, i) && Bit(s, i) == bit
      then && 0 <= p < 8 * |s| && InRange(|s|, range, p) && Bit(s, p) == bit
           && forall i :: 0 <= i < p && InRange(|s|, range, i) ==> Bit(s, i) != bit
      else p == if !bit && !range.Between? && (exists i :: 0 <= i < 8 * |s| && InRange(|s|, range, i)) then 8 * |s| else -1
  {
    hide Bit, InRange, BitposSpan;
    var r := BitposSpan(|s|, range);
    forall i: nat
      ensures r.lo <= i < r.hi <==> InRange(|s|, range, i)
    {
      SpanMeans(|s|, range, i);
    }
    if r.lo < r.hi {
      assert InRange(|s|, range, r.lo);
    }
  }

  /** `t` shows, from byte `at` of s on, the bits of lo..hi that equal `bit`. */
  ghost predicate Shows(t: seq<bv8>, s: seq<bv8>, at: nat, bit: bool, lo: nat, hi: nat)
    requires at + |t| <= |s| && hi <= 8 * |s|
  {
    forall i :: 0 <= i < 8 * |t| ==> (Bit(t, i) == bit <==> lo <= 8 * at + i < hi && Bit(s, 8 * at + i) == bit)
  }

  ghost predicate NoneIn(s: seq<bv8>, bit: bool, lo: nat, hi: nat)
    requires hi <= 8 * |s|
  {
    forall i :: lo <= i < hi ==> Bit(s, i) != bit
  }

  ghost predicate IsMiss(pos: int, bit: bool, bytes: nat) { pos == -1 || pos == 8 * bytes }

  /** What a search of a shown part tells about the range. */
  lemma ShownAnswer(t: seq<bv8>, s: seq<bv8>, at: nat, bit: bool, lo: nat, hi: nat)
    requires at + |t| <= |s| && hi <= 8 * |s| && Shows(t, s, at, bit, lo, hi)
    ensures var pos := BitposAnswer(t, bit);
            if IsMiss(pos, bit, |t|) then
              && pos == (if bit then -1 else 8 * |t|)
              && forall i :: lo <= i < hi && 8 * at <= i < 8 * (at + |t|) ==> Bit(s, i) != bit
            else
              && 0 <= pos && lo <= 8 * at + pos < hi && Bit(s, 8 * at + pos) == bit
              && forall i :: lo <= i < hi && 8 * at <= i < 8 * at + pos ==> Bit(s, i) != bit
  {
    hide Bit;
    var n := 8 * |t|;
    var r := FirstBit(t, bit, 0, n);
    forall i | lo <= i < hi && 8 * at <= i < 8 * at + r ensures Bit(s, i) != bit {
      assert Bit(t, i - 8 * at) != bit;
    }
  }

  lemma ShowsSlice(s: seq<bv8>, a: nat, b: nat, bit: bool, lo: nat, hi: nat)
    requires a <= b <= |s| && lo <= 8 * a && 8 * b <= hi <= 8 * |s|
    ensures Shows(s[a..b], s, a, bit, lo, hi)
  {
    hide BitOf;
    forall i | 0 <= i < 8 * (b - a) ensures Bit(s[a..b], i) == Bit(s, 8 * a + i) {
      assert (8 * a + i) / 8 == a + i / 8 && (8 * a + i) % 8 == i % 8;
    }
  }

  /** A byte with the bits outside a range forced to the value not sought. */
  function Masked(b: bv8, mask: bv8, bit: bool): bv8 { if bit then b & !mask else b | mask }

  lemma MaskedHead(b: bv8, k: nat, bit: bool, i: nat)
    requires k < 8 && i < 8
    ensures BitOf(Masked(b, HeadMask(k), bit), i) == bit <==> i >= k && BitOf(b, i) == bit
  {
    hide BitOf, HeadMask;
    ClearedBits(b, k, i);
    FilledBits(b, k, i);
  }

  lemma MaskedTail(b: bv8, k: nat, bit: bool, i: nat)
    requires k < 8 && i < 8
    ensures BitOf(Masked(b, TailMask(k), bit), i) == bit <==> i <= k && BitOf(b, i) == bit
  {
    hide BitOf, TailMask;
    ClearedBits(b, k, i);
    FilledBits(b, k, i);
  }

  lemma MaskedNothing(b: bv8, bit: bool)
    ensures Masked(b, 0, bit) == b
  {
  }

  /** The masked first byte, and also the last byte's mask when they coincide. */
  lemma ShowsHead(s: seq<bv8>, bit: bool, lo: nat, hi: nat)
    requires lo < hi <= 8 * |s|
    ensures var t := Masked(s[lo / 8], HeadMask(lo % 8), bit);
            && ((hi - 1) / 8 > lo / 8 ==> Shows([t], s, lo / 8, bit, lo, hi))
            && ((hi - 1) / 8 == lo / 8 ==> Shows([Masked(t, TailMask((hi - 1) % 8), bit)], s, lo / 8, bit, lo, hi))
  {
    hide BitOf, HeadMask, TailMask, Masked;
    var a, k, l := lo / 8, lo % 8, (hi - 1) % 8;
    var t := Masked(s[a], HeadMask(k), bit);
    forall i | 0 <= i < 8
      ensures BitOf(t, i) == bit <==> i >= k && BitOf(s[a], i) == bit
      ensures BitOf(Masked(t, TailMask(l), bit), i) == bit <==> i <= l && BitOf(t, i) == bit
      ensures (8 * a + i) / 8 == a && (8 * a + i) % 8 == i
    {
      MaskedHead(s[a], k, bit, i);
      MaskedTail(t, l, bit, i);
    }
  }

  lemma ShowsTail(s: seq<bv8>, bit: bool, lo: nat, hi: nat)
    requires lo <= 8 * ((hi - 1) / 8) < hi <= 8 * |s|
    ensures Shows([Masked(s[(hi - 1) / 8], TailMask((hi - 1) % 8), bit)], s, (hi - 1) / 8, bit, lo, hi)
  {
    hide BitOf, TailMask, Masked;
    var b, l := (hi - 1) / 8, (hi - 1) % 8;
    forall i | 0 <= i < 8
      ensures BitOf(Masked(s[b], TailMask(l), bit), i) == bit <==> i <= l && BitOf(s[b], i) == bit
      ensures (8 * b + i) / 8 == b && (8 * b + i) % 8 == i
    {
      MaskedTail(s[b], l, bit, i);
    }
  }

  /** What the three-part search leaves behind at `result`. */
  ghost predicate SearchDone(p: seq<bv8>, bit: bool, lo: nat, hi: nat, pos: int, start: nat, bytes: nat)
    requires hi <= 8 * |p|
  {
    if IsMiss(pos, bit, bytes) then pos == (if bit then -1 else 8 * bytes) && NoneIn(p, bit, lo, hi)
    else 0 <= pos && lo <= 8 * start + pos < hi && Bit(p, 8 * start + pos) == bit && NoneIn(p, bit, lo, 8 * start + pos)
  }

  /** A partly covered first byte is searched on its own. */
  method SearchHead(p: seq<bv8>, bit: bool, ghost lo: nat, ghost hi: nat, first: nat, end: nat,
                    headMask: bv8, tailMask: bv8) returns (done: bool, pos: int, start: nat, bytes: nat)
    requires lo < hi <= 8 * |p| && first == lo / 8 && end == (hi - 1) / 8
    requires headMask == HeadMask(lo % 8) && tailMask == TailMask((hi - 1) % 8)
    ensures start + bytes == end + 1
    ensures done ==> SearchDone(p, bit, lo, hi, pos, start, bytes)
    ensures !done ==> bytes > 0 && lo <= 8 * start <= hi && NoneIn(p, bit, lo, 8 * start)
  {
    hide Bit, HeadMask, TailMask, Masked, BitposAnswer;
    EdgeMasks(lo % 8);
    EdgeMasks((hi - 1) % 8);
    start, bytes := first, end - first + 1;
    done, pos := false, 0;
    if headMask != 0 {
      var tmpchar := Masked(p[start], headMask, bit);
      ShowsHead(p, bit, lo, hi);
      if tailMask != 0 && bytes == 1 {
        tmpchar := Masked(tmpchar, tailMask, bit);
      } else {
        MaskedNothing(tmpchar, bit);
      }
      ShownAnswer([tmpchar], p, start, bit, lo, hi);
      pos := ServerBitpos([tmpchar], 0, bit);
      if bytes == 1 || (pos != -1 && pos != 8) {
        done := true;
        return;
      }
      start, bytes := start + 1, bytes - 1;
    }
  }

  method SearchRange(p: seq<bv8>, bit: bool, ghost lo: nat, ghost hi: nat, first: nat, end: nat,
                     headMask: bv8, tailMask: bv8, address: nat) returns (pos: int, start: nat, bytes: nat)
    requires lo < hi <= 8 * |p| && first == lo / 8 && end == (hi - 1) / 8
    requires headMask == HeadMask(lo % 8) && tailMask == TailMask((hi - 1) % 8)
    ensures SearchDone(p, bit, lo, hi, pos, start, bytes) && start + bytes == end + 1
  {
    hide Bit, HeadMask, TailMask, Masked, BitposAnswer;
    EdgeMasks((hi - 1) % 8);
    var done;
    done, pos, start, bytes := SearchHead(p, bit, lo, hi, first, end, headMask, tailMask);
    if done {
      return;
    }
    var curbytes := bytes - (if tailMask != 0 then 1 else 0);
    if curbytes > 0 {
      ShowsSlice(p, start, start + curbytes, bit, lo, hi);
      ShownAnswer(p[start..start + curbytes], p, start, bit, lo, hi);
      pos := ServerBitpos(p[start..start + curbytes], address + start, bit);
      if bytes == curbytes || (pos != -1 && pos != 8 * curbytes) {
        return;
      }
      start, bytes := start + curbytes, bytes - curbytes;
    }
    var tmpchar := Masked(p[end], tailMask, bit);
    ShowsTail(p, bit, lo, hi);
    ShownAnswer([tmpchar], p, start, bit, lo, hi);
    pos := ServerBitpos([tmpchar], 0, bit);
  }

  lemma EdgeMasks(k: nat)
    requires k < 8
    ensures HeadMask(k) == 0 <==> k == 0
    ensures TailMask(k) == 0 <==> k == 7
  {
  }

  method BitPosCommand(o: Option<seq<bv8>>, bit: bool, range: Range, address: nat) returns (reply: int)
    ensures o.None? ==> reply == if bit then -1 else 0
    ensures o.Some? ==> reply == BitposReply(o.value, bit, range)
  {
    hide Bit, HeadMask, TailMask, First, Last;
    var p := if o.Some? then o.value else [];
    ghost var r := BitposSpan(|p|, range);
    var first, end, headMask, tailMask := ResolveRange(|p|, range);
    if o.None? {
      return if bit then -1 else 0;
    }
    if first > end {
      return -1;
    }
    var pos, start, bytes := SearchRange(p, bit, r.lo, r.hi, first, end, headMask, tailMask, address);
    SearchAnswer(p, bit, r.lo, r.hi, pos, start, bytes);
    LastByte(|p|);
    if range.Between? && !bit && pos == 8 * bytes {
      return -1;
    }
    if pos != -1 {
      pos := pos + 8 * start;
    }
    reply := pos;
  }

  lemma LastByte(length: nat)
    ensures length > 0 ==> Last(length, length - 1) == length - 1
  {
  }

  lemma SearchAnswer(p: seq<bv8>, bit: bool, lo: nat, hi: nat, pos: int, start: nat, bytes: nat)
    requires lo < hi <= 8 * |p| && SearchDone(p, bit, lo, hi, pos, start, bytes)
    ensures FirstBit(p, bit, lo, hi) == if IsMiss(pos, bit, bytes) then hi else 8 * start + pos
  {
    hide Bit;
  }
}
