/** The indexes of clients blocked on keys, and the steps that keep them in
    agreement (src/blocked.c). */
module BlockingIndex {
  type Client = nat
  datatype Key = Key(db: nat, name: string)
  datatype BlockType = BlockedList | BlockedZset | BlockedStream

  datatype Index = Index(
    keys: map<Client, set<Key>>,        // bstate->keys
    blocked: map<Client, BlockType>,    // flag.blocked and bstate->btype
    onNokey: set<Client>,               // bstate->unblock_on_nokey
    waiting: map<Key, seq<Client>>,     // db->blocking_keys
    nokey: map<Key, nat>,               // db->blocking_keys_unblock_on_nokey
    counts: map<BlockType, nat>         // blocked_clients_by_type
  )

  // ------------------------------------------------------------ sequences

  ghost predicate NoDup<T>(s: seq<T>) { forall i, j :: 0 <= i < j < |s| ==> s[i] != s[j] }

  /** The list after unlinking the node of one client. */
  function Without(s: seq<Client>, c: Client): seq<Client> {
    if s == [] then [] else if s[0] == c then s[1..] else [s[0]] + Without(s[1..], c)
  }

  /** How many of the listed clients asked to be woken without the key. */
  function Flagged(s: seq<Client>, flags: set<Client>): nat {
    if s == [] then 0 else (if s[|s| - 1] in flags then 1 else 0) + Flagged(s[..|s| - 1], flags)
  }

  lemma {:induction false} WithoutAt(s: seq<Client>, k: nat)
    requires NoDup(s) && k < |s|
    ensures Without(s, s[k]) == s[..k] + s[k + 1..]
    decreases |s|
  {
    if k > 0 {
      WithoutAt(s[1..], k - 1);
      assert [s[0]] + (s[1..][..k - 1] + s[1..][k..]) == s[..k] + s[k + 1..];
    }
  }

  lemma {:induction false} WithoutAbsent(s: seq<Client>, c: Client)
    requires c !in s
    ensures Without(s, c) == s
    decreases |s|
  {
    if s != [] {
      WithoutAbsent(s[1..], c);
    }
  }

  lemma {:induction false} FlaggedSplit(a: seq<Client>, b: seq<Client>, flags: set<Client>)
    ensures Flagged(a + b, flags) == Flagged(a, flags) + Flagged(b, flags)
    decreases |b|
  {
    if b == [] {
      assert a + b == a;
    } else {
      assert (a + b)[..|a + b| - 1] == a + b[..|b| - 1];
      FlaggedSplit(a, b[..|b| - 1], flags);
    }
  }

  lemma {:induction false} FlaggedSame(s: seq<Client>, f: set<Client>, g: set<Client>)
    requires forall i :: 0 <= i < |s| ==> (s[i] in f <==> s[i] in g)
    ensures Flagged(s, f) == Flagged(s, g)
    decreases |s|
  {
    if s != [] {
      FlaggedSame(s[..|s| - 1], f, g);
    }
  }

  /** Unlinking: the same clients in the same order but one. */
  lemma Unlinked(s: seq<Client>, c: Client, flags: set<Client>)
    requires NoDup(s)
    ensures NoDup(Without(s, c))
    ensures forall x :: x in Without(s, c) <==> x in s && x != c
    ensures Flagged(Without(s, c), flags) == Flagged(s, flags) - if c in s && c in flags then 1 else 0
  {
    hide Flagged;
    if c in s {
      var k :| 0 <= k < |s| && s[k] == c;
      WithoutAt(s, k);
      FlaggedWithout(s, k, flags);
    } else {
      WithoutAbsent(s, c);
    }
  }

  lemma FlaggedWithout(s: seq<Client>, k: nat, flags: set<Client>)
    requires k < |s|
    ensures Flagged(s[..k] + s[k + 1..], flags) == Flagged(s, flags) - if s[k] in flags then 1 else 0
  {
    var c := s[k];
    assert s == s[..k] + [c] + s[k + 1..];
    FlaggedSplit(s[..k], [c], flags);
    FlaggedSplit(s[..k] + [c], s[k + 1..], flags);
    FlaggedSplit(s[..k], s[k + 1..], flags);
    assert Flagged([c], flags) == if c in flags then 1 else 0;
  }

  lemma Appended(s: seq<Client>, c: Client, flags: set<Client>)
    requires NoDup(s) && c !in s
    ensures NoDup(s + [c])
    ensures Flagged(s + [c], flags) == Flagged(s, flags) + if c in flags then 1 else 0
  {
    FlaggedSplit(s, [c], flags);
    assert Flagged([c], flags) == if c in flags then 1 else 0;
  }

  // ------------------------------------------------------------ agreement

  function KeysOf(s: Index, c: Client): set<Key> { if c in s.keys then s.keys[c] else {} }

  function Waiters(s: Index, k: Key): seq<Client> { if k in s.waiting then s.waiting[k] else [] }

  function NokeyCount(s: Index, k: Key): nat { if k in s.nokey then s.nokey[k] else 0 }

  function BlockedWith(b: map<Client, BlockType>, t: BlockType): set<Client> { set c | c in b && b[c] == t }

  /** A client is in a key's list exactly once iff the key is in its keys. */
  ghost predicate ListsAgree(s: Index) {
    && (forall k :: k in s.waiting ==> s.waiting[k] != [])
    && (forall k :: NoDup(Waiters(s, k)))
    && (forall c, k :: c in Waiters(s, k) <==> k in KeysOf(s, c))
  }

  ghost predicate NokeyAgrees(s: Index, flags: set<Client>) {
    && (forall k :: k in s.nokey ==> s.nokey[k] > 0)
    && (forall k :: NokeyCount(s, k) == Flagged(Waiters(s, k), flags))
  }

  ghost predicate CountsAgree(s: Index) {
    forall t: BlockType :: t in s.counts && s.counts[t] == |BlockedWith(s.blocked, t)|
  }

  ghost predicate OnlyBlocked(s: Index) {
    forall c :: KeysOf(s, c) != {} || c in s.onNokey ==> c in s.blocked
  }

  ghost predicate Agree(s: Index) {
    ListsAgree(s) && NokeyAgrees(s, s.onNokey) && CountsAgree(s) && OnlyBlocked(s)
  }

  // -------------------------------------------------------------- blocking

  /** One round of the loop of blockForKeys. */
  function AddWait(s: Index, c: Client, k: Key, nokey: bool): Index {
    if k in KeysOf(s, c) then s
    else s.(
      keys := s.keys[c := KeysOf(s, c) + {k}],
      waiting := s.waiting[k := Waiters(s, k) + [c]],
      nokey := if nokey then s.nokey[k := NokeyCount(s, k) + 1] else s.nokey
    )
  }

  function AddWaits(s: Index, c: Client, ks: seq<Key>, nokey: bool): Index {
    if ks == [] then s else AddWait(AddWaits(s, c, ks[..|ks| - 1], nokey), c, ks[|ks| - 1], nokey)
  }

  /** blockForKeys, ending in blockClient */
  function Block(s: Index, c: Client, t: BlockType, ks: seq<Key>, nokey: bool): Index
    requires t in s.counts
  {
    AddWaits(s, c, ks, nokey).(
      onNokey := if nokey then s.onNokey + {c} else s.onNokey - {c},
      blocked := s.blocked[c := t],
      counts := s.counts[t := s.counts[t] + 1]
    )
  }

  /** While blockForKeys runs, the flag of the client counts as already set. */
  function Flags(s: Index, c: Client, nokey: bool): set<Client> { if nokey then s.onNokey + {c} else s.onNokey - {c} }

  lemma AddWaitAgrees(s: Index, c: Client, k: Key, nokey: bool)
    requires ListsAgree(s) && NokeyAgrees(s, Flags(s, c, nokey))
    ensures var r := AddWait(s, c, k, nokey); ListsAgree(r) && NokeyAgrees(r, Flags(s, c, nokey))
  {
    if k !in KeysOf(s, c) {
      AddWaitLists(s, c, k, nokey);
      AddWaitNokey(s, c, k, nokey);
    }
  }

  lemma AddWaitLists(s: Index, c: Client, k: Key, nokey: bool)
    requires ListsAgree(s) && k !in KeysOf(s, c)
    ensures ListsAgree(AddWait(s, c, k, nokey))
  {
    hide Flagged;
    var r := AddWait(s, c, k, nokey);
    assert c !in Waiters(s, k);
    Appended(Waiters(s, k), c, {});
    forall j
      ensures NoDup(Waiters(r, j))
    {
      assert Waiters(r, j) == if j == k then Waiters(s, k) + [c] else Waiters(s, j);
    }
    forall d, j
      ensures d in Waiters(r, j) <==> j in KeysOf(r, d)
    {
      assert d in Waiters(s, j) <==> j in KeysOf(s, d);
      assert KeysOf(r, d) == if d == c then KeysOf(s, c) + {k} else KeysOf(s, d);
    }
  }

  lemma AddWaitNokey(s: Index, c: Client, k: Key, nokey: bool)
    requires ListsAgree(s) && NokeyAgrees(s, Flags(s, c, nokey)) && k !in KeysOf(s, c)
    ensures NokeyAgrees(AddWait(s, c, k, nokey), Flags(s, c, nokey))
  {
    hide Flagged;
    var r, flags := AddWait(s, c, k, nokey), Flags(s, c, nokey);
    assert c !in Waiters(s, k);
    Appended(Waiters(s, k), c, flags);
    forall j
      ensures NokeyCount(r, j) == Flagged(Waiters(r, j), flags)
    {
      assert j != k ==> Waiters(r, j) == Waiters(s, j) && NokeyCount(r, j) == NokeyCount(s, j);
    }
  }

  lemma {:induction false} AddWaitsAgree(s: Index, c: Client, ks: seq<Key>, nokey: bool)
    requires ListsAgree(s) && NokeyAgrees(s, Flags(s, c, nokey))
    ensures var r := AddWaits(s, c, ks, nokey);
      ListsAgree(r) && NokeyAgrees(r, Flags(s, c, nokey)) && r == s.(keys := r.keys, waiting := r.waiting, nokey := r.nokey)
    ensures forall d :: d != c ==> KeysOf(AddWaits(s, c, ks, nokey), d) == KeysOf(s, d)
    decreases |ks|
  {
    hide ListsAgree, NokeyAgrees;
    if ks != [] {
      AddWaitsAgree(s, c, ks[..|ks| - 1], nokey);
      AddWaitAgrees(AddWaits(s, c, ks[..|ks| - 1], nokey), c, ks[|ks| - 1], nokey);
    }
  }

  lemma BlockedMore(b: map<Client, BlockType>, c: Client, t: BlockType)
    requires c !in b
    ensures forall u :: |BlockedWith(b[c := t], u)| == |BlockedWith(b, u)| + if u == t then 1 else 0
  {
    assert BlockedWith(b[c := t], t) == BlockedWith(b, t) + {c};
    forall u | u != t
      ensures BlockedWith(b[c := t], u) == BlockedWith(b, u)
    {
    }
  }

  lemma BlockedLess(b: map<Client, BlockType>, c: Client)
    requires c in b
    ensures forall u :: |BlockedWith(b - {c}, u)| == |BlockedWith(b, u)| - if u == b[c] then 1 else 0
  {
    assert BlockedWith(b, b[c]) == BlockedWith(b - {c}, b[c]) + {c};
    forall u | u != b[c]
      ensures BlockedWith(b - {c}, u) == BlockedWith(b, u)
    {
    }
  }

  /** Blocking an unblocked client keeps the indexes in agreement. */
  lemma BlockAgrees(s: Index, c: Client, t: BlockType, ks: seq<Key>, nokey: bool)
    requires Agree(s) && c !in s.blocked
    ensures Agree(Block(s, c, t, ks, nokey))
  {
    hide ListsAgree;
    NokeyFlagsSame(s, c, nokey);
    AddWaitsAgree(s, c, ks, nokey);
    BlockedMore(s.blocked, c, t);
    var w, r := AddWaits(s, c, ks, nokey), Block(s, c, t, ks, nokey);
    ListsOnly(w, r);
    assert NokeyAgrees(r, r.onNokey) by {
      NokeyOnly(w, r, Flags(s, c, nokey));
    }
    assert forall d :: KeysOf(r, d) == KeysOf(w, d);
  }

  lemma NokeyFlagsSame(s: Index, c: Client, nokey: bool)
    requires ListsAgree(s) && NokeyAgrees(s, s.onNokey) && KeysOf(s, c) == {}
    ensures NokeyAgrees(s, Flags(s, c, nokey))
  {
    forall k
      ensures NokeyCount(s, k) == Flagged(Waiters(s, k), Flags(s, c, nokey))
    {
      assert c !in Waiters(s, k);
      FlaggedSame(Waiters(s, k), s.onNokey, Flags(s, c, nokey));
    }
  }

  /** The lists and the counter look at these parts only. */
  lemma ListsOnly(s: Index, r: Index)
    requires ListsAgree(s) && s.keys == r.keys && s.waiting == r.waiting
    ensures ListsAgree(r)
  {
    assert forall k :: Waiters(r, k) == Waiters(s, k);
    assert forall c :: KeysOf(r, c) == KeysOf(s, c);
  }

  lemma NokeyOnly(s: Index, r: Index, flags: set<Client>)
    requires NokeyAgrees(s, flags) && s.waiting == r.waiting && s.nokey == r.nokey
    ensures NokeyAgrees(r, flags)
  {
    assert forall k :: Waiters(r, k) == Waiters(s, k) && NokeyCount(r, k) == NokeyCount(s, k);
  }

  // ------------------------------------------------------------- releasing

  /** releaseBlockedEntry, without removing the key from the client's keys. */
  function Unlink(s: Index, c: Client, k: Key): Index
    requires k in s.waiting
  {
    var l := Without(s.waiting[k], c);
    if l == [] then s.(waiting := s.waiting - {k}, nokey := s.nokey - {k})
    else s.(
      waiting := s.waiting[k := l],
      nokey :=
        if c !in s.onNokey || k !in s.nokey then s.nokey
        else if s.nokey[k] <= 1 then s.nokey - {k}
        else s.nokey[k := s.nokey[k] - 1]
    )
  }

  function Release(s: Index, c: Client, k: Key): Index
    requires k in s.waiting
  {
    var u := Unlink(s, c, k);
    u.(keys := u.keys[c := KeysOf(s, c) - {k}])
  }

  /** The counter entry that the source asserts to exist. */
  lemma EntryExists(s: Index, c: Client, k: Key)
    requires ListsAgree(s) && NokeyAgrees(s, s.onNokey) && k in KeysOf(s, c)
    ensures k in s.waiting
    ensures c in s.onNokey ==> k in s.nokey
  {
    assert c in Waiters(s, k);
    if c in s.onNokey {
      Unlinked(Waiters(s, k), c, s.onNokey);
      assert NokeyCount(s, k) == Flagged(Waiters(s, k), s.onNokey);
    }
  }

  lemma ReleaseAgrees(s: Index, c: Client, k: Key)
    requires ListsAgree(s) && NokeyAgrees(s, s.onNokey) && k in s.waiting && k in KeysOf(s, c)
    ensures ListsAgree(Release(s, c, k)) && NokeyAgrees(Release(s, c, k), s.onNokey)
  {
    hide Flagged, Without;
    var r := Release(s, c, k);
    EntryExists(s, c, k);
    Unlinked(Waiters(s, k), c, s.onNokey);
    FlaggedNone(s.onNokey);
    assert Waiters(r, k) == Without(Waiters(s, k), c);
    forall j
      ensures NoDup(Waiters(r, j))
      ensures NokeyCount(r, j) == Flagged(Waiters(r, j), s.onNokey)
    {
      assert j != k ==> Waiters(r, j) == Waiters(s, j) && NokeyCount(r, j) == NokeyCount(s, j);
      assert NokeyCount(s, j) == Flagged(Waiters(s, j), s.onNokey);
    }
    forall d, j
      ensures d in Waiters(r, j) <==> j in KeysOf(r, d)
    {
      assert d in Waiters(s, j) <==> j in KeysOf(s, d);
      assert KeysOf(r, d) == if d == c then KeysOf(s, c) - {k} else KeysOf(s, d);
    }
  }

  lemma FlaggedNone(flags: set<Client>)
    ensures Flagged([], flags) == 0
  {
  }

  /** unblockClient on a client whose keys have been released. */
  function Cleared(s: Index, c: Client): Index
    requires c in s.blocked && s.blocked[c] in s.counts && s.counts[s.blocked[c]] > 0
  {
    s.(
      counts := s.counts[s.blocked[c] := s.counts[s.blocked[c]] - 1],
      blocked := s.blocked - {c},
      onNokey := s.onNokey - {c}
    )
  }

  lemma ClearedAgrees(s: Index, c: Client)
    requires Agree(s) && c in s.blocked && KeysOf(s, c) == {}
    ensures s.counts[s.blocked[c]] > 0 && Agree(Cleared(s, c))
  {
    hide ListsAgree;
    BlockedLess(s.blocked, c);
    assert c in BlockedWith(s.blocked, s.blocked[c]);
    var r := Cleared(s, c);
    ListsOnly(s, r);
    NokeyFlagsSame(s, c, false);
    NokeyOnly(s, r, s.onNokey - {c});
    assert forall d :: KeysOf(r, d) == KeysOf(s, d);
  }
}
