/** Slot ranges in the arguments of the migration commands
    (src/cluster_migrateslots.c). */
module MigrationParse {
  import opened Common
  import opened MigrationJobs

  /** An argument that reads as an integer, or any other. */
  datatype Arg = Number(n: int) | Word(text: string)

  datatype Parsed = Parsed(ranges: seq<Range>, next: nat, node: nat)

  /** Ranges are read in pairs up to the first start that is not a number. */
  function EndOf(argv: seq<Arg>, i: nat): (e: nat)
    ensures e >= i && (e - i) % 2 == 0
    decreases |argv| - i
  {
    if i >= |argv| || argv[i].Word? then i else EndOf(argv, i + 2)
  }

  /** getSlotOrReply on both ends, and their order. */
  predicate PairOk(argv: seq<Arg>, i: nat) {
    i + 1 < |argv| && argv[i].Number? && argv[i + 1].Number? && 0 <= argv[i].n <= argv[i + 1].n < SLOTS
  }

  function RangeAt(argv: seq<Arg>, i: nat): Range
    requires PairOk(argv, i)
  {
    Range(argv[i].n, argv[i + 1].n)
  }

  ghost predicate AllOwned(r: Range, owners: map<nat, nat>, node: nat) {
    forall slot :: InRange(slot, r) ==> slot in owners && owners[slot] == node
  }

  /** The k-th pair after the start is a range and all its slots belong to the
      node. */
  ghost predicate Served(argv: seq<Arg>, i: nat, owners: map<nat, nat>, node: nat) {
    PairOk(argv, i) && AllOwned(RangeAt(argv, i), owners, node)
  }

  /** What parseSlotRangesOrReply accepts, and as what. */
  ghost predicate Accepts(argv: seq<Arg>, start: nat, owners: map<nat, nat>, r: Parsed) {
    && r.next == EndOf(argv, start) == start + 2 * |r.ranges| && r.ranges != []
    && (forall k :: 0 <= k < |r.ranges| ==> Served(argv, start + 2 * k, owners, r.node) && r.ranges[k] == RangeAt(argv, start + 2 * k))
    && (forall j, k :: 0 <= j < k < |r.ranges| ==> !Overlap(r.ranges[k], r.ranges[j]))
  }

  /** The slots of one range all belong to one node, the given one if any. */
  method CheckOwners(r: Range, owners: map<nat, nat>, node: Option<nat>) returns (n: Option<nat>)
    requires Proper(r)
    ensures n.Some? ==> AllOwned(r, owners, n.value)
    ensures n.Some? && node.Some? ==> n == node
    ensures n.None? ==> forall m :: AllOwned(r, owners, m) ==> node.Some? && node.value != m
  {
    n := node;
    var slot := r.first;
    while slot <= r.last
      invariant r.first <= slot <= r.last + 1
      invariant forall x: nat :: InRange(x, r) && x < slot ==> x in owners && n == Some(owners[x])
      invariant node.Some? ==> n == node
      invariant slot == r.first ==> n == node
      decreases r.last + 1 - slot
    {
      assert InRange(slot, r) && InRange(r.first, r);
      if slot !in owners {
        return None;
      }
      if n.None? {
        n := Some(owners[slot]);
      } else if n.value != owners[slot] {
        return None;
      }
      slot := slot + 1;
    }
    assert InRange(r.first, r);
  }

  /** parseSlotRangesOrReply: succeeds exactly on acceptable arguments. */
  method ParseRanges(argv: seq<Arg>, start: nat, owners: map<nat, nat>) returns (r: Option<Parsed>)
    ensures r.Some? ==> Accepts(argv, start, owners, r.value)
    ensures r.None? ==> forall p :: !Accepts(argv, start, owners, p)
  {
    hide Served, EndOf, Overlap, AllOwned;
    var ranges: seq<Range> := [];
    var node: Option<nat> := None;
    var i := start;
    while i < |argv|
      invariant i == start + 2 * |ranges| && Prefix(argv, start, owners, ranges, node)
      decreases |argv| + 1 - i
    {
      if argv[i].Word? {
        break;
      }
      if !PairOk(argv, i) {
        RejectPair(argv, start, owners, ranges, node);
        return None;
      }
      var added := RangeAt(argv, i);
      var owner := CheckOwners(added, owners, node);
      if owner.None? {
        RejectOwner(argv, start, owners, ranges, node, added);
        return None;
      }
      var j := 0;
      while j < |ranges|
        invariant 0 <= j <= |ranges| && forall x :: 0 <= x < j ==> !Overlap(added, ranges[x])
      {
        if Overlap(added, ranges[j]) {
          RejectOverlap(argv, start, owners, ranges, node, j);
          return None;
        }
        j := j + 1;
      }
      PrefixMore(argv, start, owners, ranges, node, owner);
      node := owner;
      ranges := ranges + [added];
      i := i + 2;
    }
    PrefixDone(argv, start, owners, ranges, node);
    if ranges == [] {
      return None;
    }
    return Some(Parsed(ranges, i, node.value));
  }

  /** The ranges read so far. */
  ghost predicate Prefix(argv: seq<Arg>, start: nat, owners: map<nat, nat>, ranges: seq<Range>, node: Option<nat>) {
    && EndOf(argv, start) == EndOf(argv, start + 2 * |ranges|)
    && (node.Some? <==> ranges != [])
    && (forall k :: 0 <= k < |ranges| ==> Served(argv, start + 2 * k, owners, node.value) && ranges[k] == RangeAt(argv, start + 2 * k))
    && (forall j, k :: 0 <= j < k < |ranges| ==> !Overlap(ranges[k], ranges[j]))
  }

  /** Accepted arguments start with what was read so far and go on. */
  lemma AcceptedGoesOn(argv: seq<Arg>, start: nat, owners: map<nat, nat>, ranges: seq<Range>, node: Option<nat>, p: Parsed)
    requires Prefix(argv, start, owners, ranges, node) && Accepts(argv, start, owners, p)
    requires start + 2 * |ranges| < |argv| && argv[start + 2 * |ranges|].Number?
    ensures |ranges| < |p.ranges| && Served(argv, start + 2 * |ranges|, owners, p.node)
    ensures p.ranges[|ranges|] == RangeAt(argv, start + 2 * |ranges|)
    ensures forall k :: 0 <= k < |ranges| ==> p.ranges[k] == ranges[k]
    ensures node.Some? ==> node.value == p.node
  {
    hide Overlap, AllOwned;
    var n := |ranges|;
    assert EndOf(argv, start) >= start + 2 * n + 2;
    assert n < |p.ranges|;
    forall k | 0 <= k < n
      ensures p.ranges[k] == ranges[k]
    {
      assert Served(argv, start + 2 * k, owners, p.node);
    }
    if node.Some? {
      assert Served(argv, start + 2 * 0, owners, node.value) && Served(argv, start + 2 * 0, owners, p.node);
      OneServer(argv, start, owners, node, p.node);
    }
  }

  lemma RejectPair(argv: seq<Arg>, start: nat, owners: map<nat, nat>, ranges: seq<Range>, node: Option<nat>)
    requires Prefix(argv, start, owners, ranges, node)
    requires start + 2 * |ranges| < |argv| && argv[start + 2 * |ranges|].Number? && !PairOk(argv, start + 2 * |ranges|)
    ensures forall p :: !Accepts(argv, start, owners, p)
  {
    hide Prefix, Accepts;
    forall p
      ensures !Accepts(argv, start, owners, p)
    {
      if Accepts(argv, start, owners, p) {
        AcceptedGoesOn(argv, start, owners, ranges, node, p);
      }
    }
  }

  lemma RejectOwner(argv: seq<Arg>, start: nat, owners: map<nat, nat>, ranges: seq<Range>, node: Option<nat>, added: Range)
    requires Prefix(argv, start, owners, ranges, node) && PairOk(argv, start + 2 * |ranges|)
    requires added == RangeAt(argv, start + 2 * |ranges|)
    requires forall m :: AllOwned(added, owners, m) ==> node.Some? && node.value != m
    ensures forall p :: !Accepts(argv, start, owners, p)
  {
    hide Prefix, Accepts, AllOwned;
    forall p
      ensures !Accepts(argv, start, owners, p)
    {
      if Accepts(argv, start, owners, p) {
        AcceptedGoesOn(argv, start, owners, ranges, node, p);
      }
    }
  }

  lemma RejectOverlap(argv: seq<Arg>, start: nat, owners: map<nat, nat>, ranges: seq<Range>, node: Option<nat>, j: nat)
    requires Prefix(argv, start, owners, ranges, node) && PairOk(argv, start + 2 * |ranges|)
    requires j < |ranges| && Overlap(RangeAt(argv, start + 2 * |ranges|), ranges[j])
    ensures forall p :: !Accepts(argv, start, owners, p)
  {
    hide Prefix, Served, EndOf, Overlap;
    forall p
      ensures !Accepts(argv, start, owners, p)
    {
      if Accepts(argv, start, owners, p) {
        AcceptedGoesOn(argv, start, owners, ranges, node, p);
      }
    }
  }

  lemma PrefixMore(argv: seq<Arg>, start: nat, owners: map<nat, nat>, ranges: seq<Range>, node: Option<nat>, owner: Option<nat>)
    requires Prefix(argv, start, owners, ranges, node) && PairOk(argv, start + 2 * |ranges|)
    requires owner.Some? && (node.Some? ==> node == owner) && AllOwned(RangeAt(argv, start + 2 * |ranges|), owners, owner.value)
    requires forall j :: 0 <= j < |ranges| ==> !Overlap(RangeAt(argv, start + 2 * |ranges|), ranges[j])
    ensures Prefix(argv, start, owners, ranges + [RangeAt(argv, start + 2 * |ranges|)], owner)
  {
    hide Overlap, AllOwned;
    var more := ranges + [RangeAt(argv, start + 2 * |ranges|)];
    assert start + 2 * |more| == start + 2 * |ranges| + 2;
    forall k | 0 <= k < |more|
      ensures Served(argv, start + 2 * k, owners, owner.value) && more[k] == RangeAt(argv, start + 2 * k)
    {
      assert k < |ranges| ==> Served(argv, start + 2 * k, owners, node.value) && more[k] == ranges[k];
    }
  }

  lemma PrefixDone(argv: seq<Arg>, start: nat, owners: map<nat, nat>, ranges: seq<Range>, node: Option<nat>)
    requires Prefix(argv, start, owners, ranges, node)
    requires start + 2 * |ranges| >= |argv| || argv[start + 2 * |ranges|].Word?
    ensures ranges != [] ==> Accepts(argv, start, owners, Parsed(ranges, start + 2 * |ranges|, node.value))
    ensures ranges == [] ==> forall p :: !Accepts(argv, start, owners, p)
  {
  }

  /** A pair that two nodes serve has one node. */
  lemma OneServer(argv: seq<Arg>, i: nat, owners: map<nat, nat>, node: Option<nat>, m: nat)
    requires node.Some? ==> Served(argv, i, owners, node.value) && Served(argv, i, owners, m)
    ensures node.Some? ==> node.value == m
  {
    if node.Some? {
      assert InRange(RangeAt(argv, i).first, RangeAt(argv, i));
    }
  }
}
