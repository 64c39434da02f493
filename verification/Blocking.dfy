/** Blocking on keys, readiness signals and the drain that serves blocked
    clients (src/blocked.c). */
module Blocking {
  import opened Common
  import opened BlockingIndex

  datatype ObjectType = StringObject | ListObject | SetObject | ZsetObject | HashObject | ModuleObject | StreamObject

  /** getBlockedTypeByType, with no module clients */
  function BlockTypeOf(o: ObjectType): Option<BlockType> {
    match o
    case ListObject => Some(BlockedList)
    case ZsetObject => Some(BlockedZset)
    case StreamObject => Some(BlockedStream)
    case _ => None
  }

  datatype Signal = Signal(key: Key, kind: ObjectType, deleted: bool)
  datatype Again = Again(btype: BlockType, keys: seq<Key>, nokey: bool)

  /** What one examined client meets: the object found under the key and, if
      its command runs again, the signals it raises and whether it blocks. */
  datatype Turn = Turn(found: Option<ObjectType>, signals: seq<Signal>, again: Option<Again>)

  datatype Event = Signalled(key: Key) | Visited(key: Key)

  // ------------------------------------------------------- pending signals

  /** The last event about the key is a signal. */
  ghost predicate Unserved(log: seq<Event>, k: Key) {
    log != [] && (log[|log| - 1] == Signalled(k)
                  || (log[|log| - 1] != Visited(k) && Unserved(log[..|log| - 1], k)))
  }

  /** Nothing is unserved exactly when a visit follows every signal. */
  lemma {:induction false} ServedIff(log: seq<Event>, k: Key)
    ensures !Unserved(log, k) <==>
      forall i :: 0 <= i < |log| && log[i] == Signalled(k) ==> exists j :: i < j < |log| && log[j] == Visited(k)
    decreases |log|
  {
    if log != [] {
      var n := |log| - 1;
      ServedIff(log[..n], k);
      if log[n] == Visited(k) {
      } else if log[n] == Signalled(k) {
      } else if Unserved(log[..n], k) {
        var i :| 0 <= i < n && log[..n][i] == Signalled(k) && forall j :: i < j < n ==> log[..n][j] != Visited(k);
        assert log[i] == Signalled(k);
        assert forall j :: i < j < n ==> log[j] == log[..n][j];
      } else {
        forall i | 0 <= i < |log| && log[i] == Signalled(k)
          ensures exists j :: i < j < |log| && log[j] == Visited(k)
        {
          assert log[..n][i] == Signalled(k);
          var j :| i < j < n && log[..n][j] == Visited(k);
          assert log[j] == Visited(k);
        }
      }
    }
  }

  /** The dict of ready keys holds exactly the queued keys, each queued once. */
  ghost predicate ReadyAgrees(dict: set<Key>, queue: seq<Key>) {
    NoDup(queue) && forall k :: k in dict <==> k in queue
  }

  ghost predicate QueuesAgree(dict: set<Key>, queue: seq<Key>, log: seq<Event>, unblocked: seq<Client>, flag: set<Client>)
  {
    && ReadyAgrees(dict, queue)
    && (forall k :: Unserved(log, k) ==> k in dict)
    && NoDup(unblocked)
    && (forall c :: c in flag <==> c in unblocked)
  }

  // ------------------------------------------------------------- waiters

  lemma {:induction false} AddWaitsKeys(s: Index, c: Client, ks: seq<Key>, nokey: bool)
    ensures forall k :: k in KeysOf(AddWaits(s, c, ks, nokey), c) <==> k in KeysOf(s, c) || k in ks
    decreases |ks|
  {
    if ks != [] {
      var n := |ks| - 1;
      AddWaitsKeys(s, c, ks[..n], nokey);
      assert ks == ks[..n] + [ks[n]];
    }
  }

  lemma {:induction false} AddWaitsWaiters(s: Index, c: Client, ks: seq<Key>, nokey: bool, k: Key)
    ensures Waiters(AddWaits(s, c, ks, nokey), k) == Waiters(s, k) + if k in ks && k !in KeysOf(s, c) then [c] else []
    decreases |ks|
  {
    var none: seq<Client> := [];
    assert Waiters(s, k) + none == Waiters(s, k);
    if ks != [] {
      var n := |ks| - 1;
      AddWaitsWaiters(s, c, ks[..n], nokey, k);
      AddWaitsKeys(s, c, ks[..n], nokey);
      assert k in ks <==> k in ks[..n] || k == ks[n];
    }
  }

  class Server {
    var keys: map<Client, set<Key>>
    var blocked: map<Client, BlockType>
    var onNokey: set<Client>
    var waiting: map<Key, seq<Client>>
    var nokey: map<Key, nat>
    var counts: map<BlockType, nat>
    /** flag.pending_command */
    var pending: set<Client>
    /** db->ready_keys of every database */
    var readyDict: set<Key>
    /** server.ready_keys */
    var ready: seq<Key>
    /** in_handling_blocked_clients */
    var handling: bool
    /** server.unblocked_clients and flag.unblocked */
    var unblocked: seq<Client>
    var unblockedFlag: set<Client>

    /** The keys of the list being drained that are still to be visited. */
    ghost var taken: seq<Key>
    ghost var log: seq<Event>

    ghost function Idx(): Index
      reads `keys, `blocked, `onNokey, `waiting, `nokey, `counts
    {
      Index(keys, blocked, onNokey, waiting, nokey, counts)
    }

    ghost predicate Valid()
      reads this
    {
      Agree(Idx()) && QueuesAgree(readyDict, taken + ready, log, unblocked, unblockedFlag) && (forall c :: c in blocked ==> c in pending)
    }

    /** The key has left the dict of ready keys and only its visit is due. */
    ghost predicate AboutToVisit(k: Key)
      reads this
    {
      Agree(Idx()) && QueuesAgree(readyDict, taken + ready, log + [Visited(k)], unblocked, unblockedFlag)
      && (forall c :: c in blocked ==> c in pending)
    }

    constructor ()
      ensures Valid() && blocked == map[] && taken == [] && ready == [] && !handling
    {
      keys, blocked, onNokey, waiting, nokey := map[], map[], {}, map[], map[];
      counts := map[BlockedList := 0, BlockedZset := 0, BlockedStream := 0];
      pending, readyDict, ready, handling := {}, {}, [], false;
      unblocked, unblockedFlag, taken, log := [], {}, [], [];
      new;
      StartAgrees(Idx());
    }

    /** The loop of blockForKeys */
    method WaitOnKeys(c: Client, ks: seq<Key>, unblockOnNokey: bool)
      modifies `keys, `waiting, `nokey
      ensures Idx() == AddWaits(old(Idx()), c, ks, unblockOnNokey)
    {
      var j := 0;
      while j < |ks|
        invariant 0 <= j <= |ks|
        invariant Idx() == AddWaits(old(Idx()), c, ks[..j], unblockOnNokey)
      {
        assert ks[..j + 1][..j] == ks[..j];
        var k := ks[j];
        j := j + 1;
        var mine := if c in keys then keys[c] else {};
        if k in mine {
          continue;
        }
        keys := keys[c := mine + {k}];
        var l := if k in waiting then waiting[k] else [];
        waiting := waiting[k := l + [c]];
        if unblockOnNokey {
          nokey := nokey[k := (if k in nokey then nokey[k] else 0) + 1];
        }
      }
      assert ks[..j] == ks;
    }

    /** blockForKeys */
    method BlockForKeys(c: Client, t: BlockType, ks: seq<Key>, unblockOnNokey: bool)
      requires Valid() && c !in blocked
      modifies `keys, `blocked, `onNokey, `waiting, `nokey, `counts, `pending
      ensures Valid() && Idx() == Block(old(Idx()), c, t, ks, unblockOnNokey)
      ensures pending == old(pending) + {c}
    {
      hide Agree, QueuesAgree, AddWaits;
      BlockAgrees(Idx(), c, t, ks, unblockOnNokey);
      CountsTotal(Idx());
      WaitOnKeys(c, ks, unblockOnNokey);
      onNokey := if unblockOnNokey then onNokey + {c} else onNokey - {c};
      pending := pending + {c};
      // blockClient
      blocked := blocked[c := t];
      counts := counts[t := counts[t] + 1];
    }

    /** releaseBlockedEntry; its two assertions hold. */
    method ReleaseBlockedEntry(c: Client, k: Key, removeKey: bool)
      requires k in waiting && (c in onNokey ==> k in nokey)
      modifies `keys, `waiting, `nokey
      ensures Idx() == if removeKey then Release(old(Idx()), c, k) else Unlink(old(Idx()), c, k)
      ensures !removeKey ==> keys == old(keys)
    {
      var l := Without(waiting[k], c);
      waiting := waiting[k := l];
      if l == [] {
        waiting := waiting - {k};
        assert waiting == old(waiting) - {k};
        nokey := nokey - {k};
      } else if c in onNokey {
        if nokey[k] <= 1 {
          nokey := nokey - {k};
        } else {
          nokey := nokey[k := nokey[k] - 1];
        }
      }
      if removeKey {
        keys := keys[c := (if c in keys then keys[c] else {}) - {k}];
      }
    }

    /** unblockClientWaitingData: releases every key, in any order, then
        empties the client's keys. */
    method UnblockClientWaitingData(c: Client)
      requires ListsAgree(Idx()) && NokeyAgrees(Idx(), onNokey)
      modifies `keys, `waiting, `nokey
      ensures ListsAgree(Idx()) && NokeyAgrees(Idx(), onNokey)
      ensures Departed(old(Idx()), Idx(), c)
    {
      hide ListsAgree, NokeyAgrees, Unlink, Departing, Departed;
      ghost var start := Idx();
      DepartingStart(start, c);
      var todo := if c in keys then keys[c] else {};
      if todo == {} {
        DepartingEnd(start, start, c);
        return;
      }
      ghost var now := start;
      assert start.keys[c := todo] == start.keys;
      while todo != {}
        invariant keys == start.keys && now == Idx().(keys := start.keys[c := todo])
        invariant ListsAgree(now) && NokeyAgrees(now, onNokey) && Departing(start, now, c, todo)
      {
        var k :| k in todo;
        EntryExists(now, c, k);
        ReleaseAgrees(now, c, k);
        DepartingStep(start, now, c, k, todo);
        UnlinkKeys(Idx(), c, k, now.keys);
        ReleaseBlockedEntry(c, k, false);
        now := Release(now, c, k);
        todo := todo - {k};
        assert now.keys == start.keys[c := todo];
      }
      keys := keys[c := {}];
      DepartingEnd(start, now, c);
    }

    /** queueClientForReprocessing */
    method QueueForReprocessing(c: Client)
      requires Valid()
      modifies `unblocked, `unblockedFlag
      ensures Valid() && unblocked == if c in old(unblocked) then old(unblocked) else old(unblocked) + [c]
    {
      hide Agree, ReadyAgrees, Unserved;
      if c !in unblockedFlag {
        unblockedFlag := unblockedFlag + {c};
        unblocked := unblocked + [c];
      }
    }

    /** Taking the next client to reprocess (processUnblockedClients) */
    method NextUnblocked() returns (c: Client)
      requires Valid() && unblocked != []
      modifies `unblocked, `unblockedFlag
      ensures Valid() && old(unblocked) == [c] + unblocked && c !in unblocked
    {
      hide Agree, ReadyAgrees, Unserved;
      c := unblocked[0];
      unblocked := unblocked[1..];
      unblockedFlag := unblockedFlag - {c};
      assert old(unblocked) == [c] + unblocked;
    }

    /** unblockClient for a client blocked on keys */
    method UnblockClient(c: Client, queue: bool)
      requires Valid() && c in blocked
      modifies `keys, `waiting, `nokey, `blocked, `onNokey, `counts, `unblocked, `unblockedFlag
      ensures Valid() && blocked == old(blocked) - {c} && onNokey == old(onNokey) - {c}
      ensures KeysOf(Idx(), c) == {} && forall k :: Waiters(Idx(), k) == Without(Waiters(old(Idx()), k), c)
      ensures forall d :: d != c ==> KeysOf(Idx(), d) == KeysOf(old(Idx()), d)
      ensures unblocked == if queue && c !in old(unblocked) then old(unblocked) + [c] else old(unblocked)
    {
      hide ListsAgree, NokeyAgrees, QueuesAgree, CountsAgree, OnlyBlocked, Without;
      UnblockClientWaitingData(c);
      DepartedAgrees(old(Idx()), Idx(), c);
      ClearedAgrees(Idx(), c);
      CountsTotal(Idx());
      counts := counts[blocked[c] := counts[blocked[c]] - 1];
      blocked := blocked - {c};
      onNokey := onNokey - {c};
      if queue {
        QueueForReprocessing(c);
      }
    }

    /** A waiter of the key that a signal is meant for. */
    ghost predicate Awaited(g: Signal)
      reads this
    {
      exists c :: c in Waiters(Idx(), g.key) && c in blocked && BlockTypeOf(g.kind) == Some(blocked[c])
                  && (g.deleted ==> c in onNokey)
    }

    /** A waiter of the key is blocked for this type of object, and wants to be
        woken without it where the object was deleted. */
    ghost predicate WaitsAs(g: Signal, t: BlockType)
      reads this
    {
      exists c :: c in Waiters(Idx(), g.key) && c in blocked && blocked[c] == t && (g.deleted ==> c in onNokey)
    }

    /** signalKeyAsReadyLogic: the key ends up queued exactly when clients of
        its type are blocked and the key has an entry, which it has whenever a
        waiter of the matching type waits for it. */
    method SignalKey(g: Signal) returns (accepted: bool)
      requires Valid()
      modifies `readyDict, `ready, `log
      ensures Valid()
      ensures accepted <==> BlockTypeOf(g.kind).Some? && counts[BlockTypeOf(g.kind).value] != 0
                            && (if g.deleted then g.key in nokey else g.key in waiting)
      ensures Awaited(g) ==> accepted
      ensures g.kind == ListObject && WaitsAs(g, BlockedList) ==> g.key in readyDict
      ensures g.kind == ZsetObject && WaitsAs(g, BlockedZset) ==> g.key in readyDict
      ensures g.kind == StreamObject && WaitsAs(g, BlockedStream) ==> g.key in readyDict
      ensures g.kind == StringObject || g.kind == SetObject || g.kind == HashObject ==> !accepted
      ensures accepted ==> g.key in readyDict && log == old(log) + [Signalled(g.key)]
      ensures accepted ==> ready == if g.key in old(readyDict) then old(ready) else old(ready) + [g.key]
      ensures !accepted ==> readyDict == old(readyDict) && ready == old(ready) && log == old(log)
    {
      hide Agree, QueuesAgree;
      CountsTotal(Idx());
      AwaitedIsAccepted(g);
      var t := BlockTypeOf(g.kind);
      if t.None? {
        return false;
      }
      if counts[t.value] == 0 {
        return false;
      }
      if g.deleted {
        if g.key !in nokey {
          return false;
        }
      } else {
        if g.key !in waiting {
          return false;
        }
      }
      SignalAgrees(readyDict, taken + ready, log, unblocked, unblockedFlag, g.key);
      log := log + [Signalled(g.key)];
      if g.key in readyDict {
        return true;
      }
      readyDict := readyDict + {g.key};
      assert taken + ready + [g.key] == taken + (ready + [g.key]);
      ready := ready + [g.key];
      return true;
    }

    lemma AwaitedIsAccepted(g: Signal)
      requires Agree(Idx())
      ensures Awaited(g) ==> BlockTypeOf(g.kind).Some? && BlockTypeOf(g.kind).value in counts
                             && counts[BlockTypeOf(g.kind).value] != 0
                             && g.key in waiting && (g.deleted ==> g.key in nokey)
    {
      if Awaited(g) {
        var c :| c in Waiters(Idx(), g.key) && c in blocked && BlockTypeOf(g.kind) == Some(blocked[c])
                  && (g.deleted ==> c in onNokey);
        assert c in BlockedWith(blocked, blocked[c]);
        EntryExists(Idx(), c, g.key);
      }
    }

    /** The command of an unblocked client runs again. */
    method Reexecute(c: Client, turn: Turn)
      requires Valid() && c !in blocked
      modifies `keys, `blocked, `onNokey, `waiting, `nokey, `counts, `pending, `readyDict, `ready, `log
      ensures Valid() && old(ready) <= ready
      ensures turn.signals == [] ==> ready == old(ready)
      ensures blocked == if turn.again.Some? then old(blocked)[c := turn.again.value.btype] else old(blocked)
      ensures onNokey == if turn.again.None? then old(onNokey)
                         else if turn.again.value.nokey then old(onNokey) + {c} else old(onNokey) - {c}
      ensures Idx() == Reblocked(old(Idx()), c, turn)
    {
      hide Agree, QueuesAgree, AddWaits, Block;
      CountsTotal(Idx());
      var j := 0;
      while j < |turn.signals|
        invariant 0 <= j <= |turn.signals|
        invariant Valid() && Idx() == old(Idx()) && old(ready) <= ready && (j == 0 ==> ready == old(ready))
      {
        var _ := SignalKey(turn.signals[j]);
        j := j + 1;
      }
      if turn.again.Some? {
        BlockKeeps(Idx(), c, turn.again.value);
        BlockForKeys(c, turn.again.value.btype, turn.again.value.keys, turn.again.value.nokey);
      }
    }

    /** The pending command of an unblocked client runs again; unless it blocks,
        the client is queued. */
    method Retry(c: Client, turn: Turn)
      requires Valid() && c !in blocked && KeysOf(Idx(), c) == {}
      modifies `keys, `blocked, `onNokey, `waiting, `nokey, `counts, `pending, `readyDict, `ready, `log, `unblocked,
               `unblockedFlag
      ensures Valid() && old(ready) <= ready && (turn.signals == [] ==> ready == old(ready))
      ensures forall j :: Waiters(Idx(), j) == Waiters(old(Idx()), j) + Rejoined(c, j, turn)
      ensures blocked - {c} == old(blocked) && onNokey - {c} == old(onNokey) - {c}
      ensures if turn.again.Some? then c in blocked && blocked[c] == turn.again.value.btype else c !in blocked
      ensures unblocked == if turn.again.None? && c !in old(unblocked) then old(unblocked) + [c] else old(unblocked)
    {
      hide Agree, QueuesAgree, Reblocked, Waiters, KeysOf, Rejoined;
      CountsTotal(Idx());
      ghost var start := Idx();
      pending := pending - {c};
      Reexecute(c, turn);
      RejoinedWaiters(start, c, turn);
      if c !in blocked {
        QueueForReprocessing(c);
      }
    }

    /** unblockClientOnKey: the client leaves all lists; if its command blocks
        again it joins the tail. No other client moves. */
    method UnblockClientOnKey(c: Client, k: Key, turn: Turn)
      requires Valid() && c in Waiters(Idx(), k)
      modifies `keys, `waiting, `nokey, `blocked, `onNokey, `counts, `pending, `readyDict, `ready, `log, `unblocked,
               `unblockedFlag
      ensures Valid() && old(ready) <= ready
      ensures turn.signals == [] ==> ready == old(ready)
      ensures forall j :: Waiters(Idx(), j) == Without(Waiters(old(Idx()), j), c) + Rejoined(c, j, turn)
      ensures blocked - {c} == old(blocked) - {c} && onNokey - {c} == old(onNokey) - {c}
      ensures if turn.again.Some? then c in blocked && blocked[c] == turn.again.value.btype else c !in blocked
      ensures unblocked == if turn.again.None? && c !in old(unblocked) then old(unblocked) + [c] else old(unblocked)
    {
      hide Agree, QueuesAgree, Without, Reblocked, Release, Waiters, KeysOf, Rejoined;
      ghost var start := Idx();
      WaitingIsBlocked(start, c, k);
      AgreeReleased(start, c, k);
      ReleaseBlockedEntry(c, k, true);
      UnblockClient(c, false);
      WithoutTwice(start, Idx(), c, k);
      if c in pending {
        Retry(c, turn);
      }
    }

    /** The client's command ran again: it left the lists, and is blocked as the
        command says or queued. */
    ghost predicate Ran(was: Index, c: Client, k: Key, turn: Turn)
      reads this
    {
      && Waiters(Idx(), k) == Without(Waiters(was, k), c) + Rejoined(c, k, turn)
      && (if turn.again.Some? then c in blocked && blocked[c] == turn.again.value.btype else c !in blocked && c in unblocked)
    }

    /** A list serves clients blocked on lists, and so on; who wants no key is
        always served, and nothing changes for any other client. */
    ghost predicate ServedByType(was: Index, queued: seq<Client>, c: Client, k: Key, turn: Turn)
      reads this
    {
      c in was.blocked &&
      if c in was.onNokey
         || (turn.found == Some(ListObject) && was.blocked[c] == BlockedList)
         || (turn.found == Some(ZsetObject) && was.blocked[c] == BlockedZset)
         || (turn.found == Some(StreamObject) && was.blocked[c] == BlockedStream)
      then Ran(was, c, k, turn)
      else Idx() == was && unblocked == queued
    }

    /** The body of the loop over the waiters: the client runs again exactly when
        the key can serve it. */
    method VisitClient(c: Client, k: Key, turn: Turn)
      requires Valid() && c in Waiters(Idx(), k)
      modifies `keys, `waiting, `nokey, `blocked, `onNokey, `counts, `pending, `readyDict, `ready, `log, `unblocked,
               `unblockedFlag
      ensures Valid() && Served(old(Idx()), Idx(), c, k, turn)
      ensures ServedByType(old(Idx()), old(unblocked), c, k, turn)
      ensures old(unblocked) <= unblocked && (Leaves(old(Idx()), c, turn) ==> c in unblocked)
      ensures old(ready) <= ready && (turn.signals == [] ==> ready == old(ready))
    {
      hide Agree, QueuesAgree, Without;
      WaitingIsBlocked(Idx(), c, k);
      if (turn.found.Some? && BlockTypeOf(turn.found.value) == Some(blocked[c])) || c in onNokey {
        UnblockClientOnKey(c, k, turn);
      }
    }

    /** The loop over the clients that waited when the visit began; the link
        saved before a client is served never dangles. */
    method VisitWaiters(k: Key, script: seq<Turn>) returns (rest: seq<Turn>, tried: seq<Client>)
      requires Valid()
      modifies `keys, `waiting, `nokey, `blocked, `onNokey, `counts, `pending, `readyDict, `ready, `log, `unblocked,
               `unblockedFlag
      ensures Valid() && tried == Waiters(old(Idx()), k) && NoDup(tried)
      ensures rest == Rest(script, |tried|)
      ensures Visiting(old(Idx()), Idx(), tried, script, k, |tried|, unblocked)
      ensures old(ready) <= ready
      ensures script == [] || tried == [] ==> ready == old(ready)
    {
      hide Agree, QueuesAgree, Visiting, Served, Leaves, Stay, Back, NoDup, After, TurnOf, Rest, ServedByType;
      RestNext(script, 0);
      rest, tried := script, [];
      ghost var start := Idx();
      WaitersDistinct(start, k);
      VisitStarts(start, Waiters(start, k), script, k, unblocked);
      if k !in waiting {
        return;
      }
      ghost var initial := waiting[k];
      var count := |waiting[k]|;
      var next := Some(waiting[k][0]);
      while next.Some? && count > 0
        invariant Valid() && |tried| <= |initial| && count == |initial| - |tried| && tried == initial[..|tried|]
        invariant rest == Rest(script, |tried|)
        invariant Visiting(start, Idx(), initial, script, k, |tried|, unblocked)
        invariant count > 0 ==> next == Some(initial[|tried|])
        invariant old(ready) <= ready && (script == [] ==> ready == old(ready))
        decreases count
      {
        var current := next.value;
        VisitLink(start, Idx(), initial, script, k, |tried|, unblocked);
        RestNext(script, |tried|);
        next := After(waiting[k], current);
        count := count - 1;
        var turn := if rest == [] then Turn(None, [], None) else rest[0];
        rest := if rest == [] then [] else rest[1..];
        ghost var before, queued := Idx(), unblocked;
        VisitClient(current, k, turn);
        VisitSteps(start, before, Idx(), initial, script, k, |tried|, queued, unblocked);
        tried := tried + [current];
      }
      assert tried == initial;
    }

    /** handleClientsBlockedOnKey: examines exactly the clients that waited when
        the visit began, in blocking order, each once. Those that the key can
        serve run again; the others stay in front, in order, and those that
        block again on the key follow. */
    method VisitKey(k: Key, script: seq<Turn>) returns (rest: seq<Turn>, tried: seq<Client>)
      requires AboutToVisit(k)
      modifies `keys, `waiting, `nokey, `blocked, `onNokey, `counts, `pending, `readyDict, `ready, `log, `unblocked,
               `unblockedFlag
      ensures Valid() && tried == Waiters(old(Idx()), k) && NoDup(tried)
      ensures rest == Rest(script, |tried|)
      ensures Waiters(Idx(), k) == Stay(old(Idx()), tried, script, |tried|) + Back(old(Idx()), tried, script, k, |tried|)
      ensures forall i :: 0 <= i < |tried| && Leaves(old(Idx()), tried[i], TurnOf(script, i)) ==> tried[i] in unblocked
      ensures script == [] || tried == [] ==> ready == old(ready)
    {
      hide Agree, QueuesAgree, Visiting, Leaves, Stay, Back;
      log := log + [Visited(k)];
      rest, tried := VisitWaiters(k, script);
      VisitEnds(old(Idx()), Idx(), tried, script, k, unblocked);
    }

    /** One round: the queue is set aside and every key in it visited, while
        new signals go to the fresh queue. */
    method DrainRound(script: seq<Turn>) returns (rest: seq<Turn>)
      requires Valid() && taken == []
      modifies `keys, `waiting, `nokey, `blocked, `onNokey, `counts, `pending, `readyDict, `ready, `log, `unblocked,
               `unblockedFlag, `taken
      ensures Valid() && taken == []
      ensures |rest| < |script| || (|rest| == |script| && ready == [])
    {
      hide Agree, QueuesAgree;
      var l := ready;
      assert taken + ready == l + [];
      ready := [];
      taken := l;
      rest := script;
      while |l| != 0
        invariant Valid() && taken == l
        invariant |rest| < |script| || (|rest| == |script| && ready == [])
        decreases |l|
      {
        var k := l[0];
        VisitAgrees(readyDict, l, ready, log, unblocked, unblockedFlag);
        readyDict := readyDict - {k};
        taken := l[1..];
        var more, _ := VisitKey(k, rest);
        rest := more;
        l := l[1..];
      }
    }

    /** handleClientsBlockedOnKeys: when the drain returns, nothing is queued
        and a visit has followed every signal. */
    method HandleClientsBlockedOnKeys(script: seq<Turn>)
      requires Valid() && (!handling ==> taken == [])
      modifies this
      ensures Valid() && handling == old(handling)
      ensures old(handling) ==> Idx() == old(Idx()) && ready == old(ready) && log == old(log)
      ensures !old(handling) ==> ready == [] && taken == [] && readyDict == {} && forall k :: !Unserved(log, k)
    {
      hide Agree, QueuesAgree;
      if handling {
        return;
      }
      handling := true;
      var turns := script;
      while |ready| != 0
        invariant Valid() && taken == [] && handling
        decreases |turns|, |ready|
      {
        turns := DrainRound(turns);
      }
      handling := false;
      DrainedAll(readyDict, taken + ready, log, unblocked, unblockedFlag);
    }
  }

  /** The turn of the i-th examined client; a script that has run out wakes only
      clients that want no key. */
  function TurnOf(script: seq<Turn>, i: nat): Turn { if i < |script| then script[i] else Turn(None, [], None) }

  function Rest(script: seq<Turn>, n: nat): seq<Turn> { if n <= |script| then script[n..] else [] }

  lemma RestNext(script: seq<Turn>, n: nat)
    ensures Rest(script, 0) == script
    ensures if Rest(script, n) == [] then TurnOf(script, n) == Turn(None, [], None) && Rest(script, n + 1) == []
            else TurnOf(script, n) == Rest(script, n)[0] && Rest(script, n + 1) == Rest(script, n)[1..]
    ensures script == [] ==> TurnOf(script, n).signals == []
  {
  }

  /** Whether a client is served: its key holds an object of its type, or it
      wants to be woken without the key. */
  predicate Woken(s: Index, c: Client, turn: Turn) {
    (turn.found.Some? && c in s.blocked && BlockTypeOf(turn.found.value) == Some(s.blocked[c])) || c in s.onNokey
  }

  /** Of the first n clients, those that are not served. */
  function Stay(s: Index, l: seq<Client>, script: seq<Turn>, n: nat): seq<Client>
    requires n <= |l|
  {
    if n == 0 then []
    else Stay(s, l, script, n - 1) + if Woken(s, l[n - 1], TurnOf(script, n - 1)) then [] else [l[n - 1]]
  }

  /** Of the first n clients, those that are served and block again on the key. */
  function Back(s: Index, l: seq<Client>, script: seq<Turn>, k: Key, n: nat): seq<Client>
    requires n <= |l|
  {
    if n == 0 then []
    else Back(s, l, script, k, n - 1)
         + if Woken(s, l[n - 1], TurnOf(script, n - 1)) then Rejoined(l[n - 1], k, TurnOf(script, n - 1)) else []
  }

  /** A served client whose command does not block again. */
  ghost predicate Leaves(s: Index, c: Client, turn: Turn) { Woken(s, c, turn) && turn.again.None? }

  /** One waiter examined: served, it leaves the list or joins its tail. */
  ghost predicate Served(s: Index, t: Index, c: Client, k: Key, turn: Turn) {
    && t.blocked - {c} == s.blocked - {c} && t.onNokey - {c} == s.onNokey - {c}
    && Waiters(t, k) == if Woken(s, c, turn) then Without(Waiters(s, k), c) + Rejoined(c, k, turn) else Waiters(s, k)
  }

  /** A client's type and flag are what they were. */
  ghost predicate SameClient(s: Index, t: Index, c: Client) {
    (c in s.blocked <==> c in t.blocked) && (c in s.blocked ==> s.blocked[c] == t.blocked[c]) && (c in s.onNokey <==> c in t.onNokey)
  }

  /** The first i of the initial waiters have been examined. */
  ghost predicate Visiting(s: Index, t: Index, l: seq<Client>, script: seq<Turn>, k: Key, i: nat, queued: seq<Client>)
    requires i <= |l|
  {
    && Waiters(t, k) == Stay(s, l, script, i) + l[i..] + Back(s, l, script, k, i)
    && (forall j :: i <= j < |l| ==> SameClient(s, t, l[j]))
    && (forall j :: 0 <= j < i && Leaves(s, l[j], TurnOf(script, j)) ==> l[j] in queued)
  }

  lemma VisitStarts(s: Index, l: seq<Client>, script: seq<Turn>, k: Key, queued: seq<Client>)
    requires l == Waiters(s, k)
    ensures Visiting(s, s, l, script, k, 0, queued)
  {
    var none: seq<Client> := [];
    assert none + l[0..] + none == l;
  }

  /** The link saved before the current client is served. */
  lemma VisitLink(s: Index, t: Index, l: seq<Client>, script: seq<Turn>, k: Key, i: nat, queued: seq<Client>)
    requires Agree(t) && i < |l| && Visiting(s, t, l, script, k, i, queued)
    ensures k in t.waiting && l[i] in Waiters(t, k)
    ensures i + 1 < |l| ==> After(t.waiting[k], l[i]) == Some(l[i + 1])
    ensures Without(Waiters(t, k), l[i]) == Stay(s, l, script, i) + l[i + 1..] + Back(s, l, script, k, i)
  {
    hide Agree, Without;
    LinkSaved(t, k, Stay(s, l, script, i), l, i, Back(s, l, script, k, i));
  }

  lemma VisitSteps(s: Index, t: Index, u: Index, l: seq<Client>, script: seq<Turn>, k: Key, i: nat, queued: seq<Client>, more: seq<Client>)
    requires i < |l| && NoDup(l) && Visiting(s, t, l, script, k, i, queued)
    requires Without(Waiters(t, k), l[i]) == Stay(s, l, script, i) + l[i + 1..] + Back(s, l, script, k, i)
    requires Served(t, u, l[i], k, TurnOf(script, i))
    requires queued <= more && (Leaves(t, l[i], TurnOf(script, i)) ==> l[i] in more)
    ensures Visiting(s, u, l, script, k, i + 1, more)
  {
    hide Agree, Without, Rejoined, Waiters, Stay, Back, TurnOf, Woken, NoDup;
    var turn := TurnOf(script, i);
    WokenSame(s, t, l[i], turn);
    OthersSame(s, t, u, l, i);
    StayNext(s, l, script, k, i);
    assert l[i..] == [l[i]] + l[i + 1..];
    Rejoin(Stay(s, l, script, i), l[i], l[i + 1..], Back(s, l, script, k, i), Rejoined(l[i], k, turn));
  }

  lemma WokenSame(s: Index, t: Index, c: Client, turn: Turn)
    requires SameClient(s, t, c)
    ensures Woken(s, c, turn) == Woken(t, c, turn)
  {
  }

  lemma StayNext(s: Index, l: seq<Client>, script: seq<Turn>, k: Key, i: nat)
    requires i < |l|
    ensures var turn := TurnOf(script, i);
      if Woken(s, l[i], turn)
      then Stay(s, l, script, i + 1) == Stay(s, l, script, i)
           && Back(s, l, script, k, i + 1) == Back(s, l, script, k, i) + Rejoined(l[i], k, turn)
      else Stay(s, l, script, i + 1) == Stay(s, l, script, i) + [l[i]]
           && Back(s, l, script, k, i + 1) == Back(s, l, script, k, i)
  {
    var none: seq<Client> := [];
    assert Stay(s, l, script, i) + none == Stay(s, l, script, i) && Back(s, l, script, k, i) + none == Back(s, l, script, k, i);
  }

  lemma Rejoin(stay: seq<Client>, c: Client, rest: seq<Client>, back: seq<Client>, joins: seq<Client>)
    ensures (stay + rest + back) + joins == stay + rest + (back + joins)
    ensures stay + ([c] + rest) + back == (stay + [c]) + rest + back
  {
  }

  lemma VisitEnds(s: Index, t: Index, l: seq<Client>, script: seq<Turn>, k: Key, queued: seq<Client>)
    requires Visiting(s, t, l, script, k, |l|, queued)
    ensures Waiters(t, k) == Stay(s, l, script, |l|) + Back(s, l, script, k, |l|)
    ensures forall j :: 0 <= j < |l| && Leaves(s, l[j], TurnOf(script, j)) ==> l[j] in queued
  {
    hide Leaves;
    assert Stay(s, l, script, |l|) + l[|l|..] == Stay(s, l, script, |l|);
  }

  /** Serving one client leaves the later ones as they were. */
  lemma OthersSame(s: Index, t: Index, u: Index, l: seq<Client>, i: nat)
    requires i < |l| && NoDup(l) && forall j :: i <= j < |l| ==> SameClient(s, t, l[j])
    requires u.blocked - {l[i]} == t.blocked - {l[i]} && u.onNokey - {l[i]} == t.onNokey - {l[i]}
    ensures forall j :: i < j < |l| ==> SameClient(s, u, l[j])
  {
    forall j | i < j < |l|
      ensures SameClient(s, u, l[j])
    {
      var d := l[j];
      assert d in u.blocked <==> d in u.blocked - {l[i]};
      assert d in t.blocked <==> d in t.blocked - {l[i]};
      assert d in u.blocked ==> u.blocked[d] == (u.blocked - {l[i]})[d];
      assert d in t.blocked ==> t.blocked[d] == (t.blocked - {l[i]})[d];
      assert d in u.onNokey <==> d in u.onNokey - {l[i]};
      assert d in t.onNokey <==> d in t.onNokey - {l[i]};
    }
  }

  function After(l: seq<Client>, c: Client): Option<Client> {
    if l == [] then None
    else if l[0] == c then (if |l| == 1 then None else Some(l[1]))
    else After(l[1..], c)
  }

  lemma {:induction false} AfterAt(l: seq<Client>, i: nat)
    requires NoDup(l) && i < |l|
    ensures After(l, l[i]) == if i + 1 < |l| then Some(l[i + 1]) else None
    decreases |l|
  {
    if i > 0 {
      AfterAt(l[1..], i - 1);
    }
  }

  /** The link saved before the current client is served, and the list after
      it leaves. */
  lemma LinkSaved(s: Index, k: Key, pre: seq<Client>, initial: seq<Client>, i: nat, post: seq<Client>)
    requires Agree(s) && i < |initial| && Waiters(s, k) == pre + initial[i..] + post
    ensures k in s.waiting && s.waiting[k] == Waiters(s, k) && initial[i] in Waiters(s, k)
    ensures i + 1 < |initial| ==> After(Waiters(s, k), initial[i]) == Some(initial[i + 1])
    ensures Without(Waiters(s, k), initial[i]) == pre + initial[i + 1..] + post
  {
    var l := Waiters(s, k);
    WaitersDistinct(s, k);
    assert l[|pre|] == initial[i];
    AfterAt(l, |pre|);
    WithoutAt(l, |pre|);
    assert l[..|pre|] == pre && l[|pre| + 1..] == initial[i + 1..] + post;
    assert i + 1 < |initial| ==> l[|pre| + 1] == initial[i + 1];
  }

  lemma WaitersDistinct(s: Index, k: Key)
    requires Agree(s)
    ensures NoDup(Waiters(s, k)) && (k in s.waiting ==> s.waiting[k] != [])
  {
  }

  /** Taking the head of the drained list out of the dict before its visit. */
  lemma VisitAgrees(dict: set<Key>, l: seq<Key>, ready: seq<Key>, log: seq<Event>, unblocked: seq<Client>, flag: set<Client>)
    requires l != [] && QueuesAgree(dict, l + ready, log, unblocked, flag)
    ensures QueuesAgree(dict - {l[0]}, l[1..] + ready, log + [Visited(l[0])], unblocked, flag)
  {
    var k := l[0];
    assert l + ready == [k] + (l[1..] + ready);
    NoDupTail(k, l[1..] + ready);
    assert (log + [Visited(k)])[..|log|] == log;
    forall j
      ensures j in dict - {k} <==> j in l[1..] + ready
      ensures Unserved(log + [Visited(k)], j) ==> j != k && Unserved(log, j)
    {
      assert j in dict <==> j in [k] + (l[1..] + ready);
    }
  }

  lemma NoDupTail<T>(x: T, s: seq<T>)
    requires NoDup([x] + s)
    ensures NoDup(s) && x !in s
  {
    var q := [x] + s;
    assert forall i :: 0 <= i < |s| ==> s[i] == q[i + 1] && q[0] == x;
  }

  lemma DrainedAll(dict: set<Key>, queue: seq<Key>, log: seq<Event>, unblocked: seq<Client>, flag: set<Client>)
    requires QueuesAgree(dict, queue, log, unblocked, flag) && queue == []
    ensures dict == {} && forall k :: !Unserved(log, k)
  {
    forall k
      ensures k !in dict
    {
      assert k in dict <==> k in queue;
    }
  }

  function Rejoined(c: Client, k: Key, turn: Turn): seq<Client> {
    if turn.again.Some? && k in turn.again.value.keys then [c] else []
  }

  function Reblocked(s: Index, c: Client, turn: Turn): Index
    requires turn.again.Some? ==> turn.again.value.btype in s.counts
  {
    if turn.again.None? then s
    else Block(s, c, turn.again.value.btype, turn.again.value.keys, turn.again.value.nokey)
  }

  lemma WaitingIsBlocked(s: Index, c: Client, k: Key)
    requires Agree(s) && c in Waiters(s, k)
    ensures c in s.blocked && k in KeysOf(s, c) && k in s.waiting && (c in s.onNokey ==> k in s.nokey)
  {
    assert k in KeysOf(s, c);
    EntryExists(s, c, k);
  }

  lemma AgreeReleased(s: Index, c: Client, k: Key)
    requires Agree(s) && k in s.waiting && k in KeysOf(s, c)
    ensures Agree(Release(s, c, k))
  {
    hide ListsAgree, NokeyAgrees;
    ReleaseAgrees(s, c, k);
    var r := Release(s, c, k);
    forall d | KeysOf(r, d) != {} || d in r.onNokey
      ensures d in r.blocked
    {
      assert KeysOf(s, d) != {} || d in s.onNokey;
    }
  }

  /** Released from one list first and then from all. */
  lemma WithoutTwice(start: Index, now: Index, c: Client, k: Key)
    requires Agree(start) && k in start.waiting
    requires forall j :: Waiters(now, j) == Without(Waiters(Release(start, c, k), j), c)
    ensures forall j :: Waiters(now, j) == Without(Waiters(start, j), c)
  {
    hide Flagged;
    var r := Release(start, c, k);
    forall j
      ensures Waiters(now, j) == Without(Waiters(start, j), c)
    {
      assert Waiters(now, j) == Without(Waiters(r, j), c);
      if j == k {
        assert Waiters(r, k) == Without(Waiters(start, k), c);
        Unlinked(Waiters(start, k), c, {});
        WithoutAbsent(Waiters(r, k), c);
      } else {
        assert Waiters(r, j) == Waiters(start, j);
      }
    }
  }

  lemma RejoinedWaiters(s: Index, c: Client, turn: Turn)
    requires KeysOf(s, c) == {}
    requires turn.again.Some? ==> turn.again.value.btype in s.counts
    ensures forall j :: Waiters(Reblocked(s, c, turn), j) == Waiters(s, j) + Rejoined(c, j, turn)
  {
    forall j
      ensures Waiters(Reblocked(s, c, turn), j) == Waiters(s, j) + Rejoined(c, j, turn)
    {
      if turn.again.Some? {
        AddWaitsWaiters(s, c, turn.again.value.keys, turn.again.value.nokey, j);
      }
    }
  }

  lemma BlockKeeps(s: Index, c: Client, a: Again)
    requires a.btype in s.counts
    ensures Block(s, c, a.btype, a.keys, a.nokey).blocked == s.blocked[c := a.btype]
    ensures Block(s, c, a.btype, a.keys, a.nokey).onNokey == if a.nokey then s.onNokey + {c} else s.onNokey - {c}
  {
  }

  lemma SignalAgrees(dict: set<Key>, queue: seq<Key>, log: seq<Event>, unblocked: seq<Client>, flag: set<Client>, k: Key)
    requires QueuesAgree(dict, queue, log, unblocked, flag)
    ensures k in dict ==> QueuesAgree(dict, queue, log + [Signalled(k)], unblocked, flag)
    ensures k !in dict ==> QueuesAgree(dict + {k}, queue + [k], log + [Signalled(k)], unblocked, flag)
  {
    assert (log + [Signalled(k)])[..|log|] == log;
    forall j
      ensures Unserved(log + [Signalled(k)], j) <==> j == k || Unserved(log, j)
    {
    }
  }

  lemma DepartedAgrees(start: Index, now: Index, c: Client)
    requires Agree(start) && Departed(start, now, c) && ListsAgree(now) && NokeyAgrees(now, now.onNokey)
    ensures Agree(now) && KeysOf(now, c) == {}
  {
    hide ListsAgree, NokeyAgrees, Without;
  }

  /** The client has left the lists of all its keys but `todo`. */
  ghost predicate Departing(start: Index, now: Index, c: Client, todo: set<Key>) {
    && (forall k :: Waiters(now, k) == if k in todo then Waiters(start, k) else Without(Waiters(start, k), c))
    && KeysOf(now, c) == todo
    && (forall d :: d != c ==> KeysOf(now, d) == KeysOf(start, d))
    && now.blocked == start.blocked && now.onNokey == start.onNokey && now.counts == start.counts
  }

  /** The client has left every list and nothing else changed there. */
  ghost predicate Departed(start: Index, now: Index, c: Client) { Departing(start, now, c, {}) }

  lemma DepartingStart(s: Index, c: Client)
    requires ListsAgree(s)
    ensures Departing(s, s, c, KeysOf(s, c))
  {
    forall k
      ensures k !in KeysOf(s, c) ==> Without(Waiters(s, k), c) == Waiters(s, k)
    {
      if k !in KeysOf(s, c) {
        assert c !in Waiters(s, k);
        WithoutAbsent(Waiters(s, k), c);
      }
    }
  }

  lemma DepartingStep(start: Index, now: Index, c: Client, k: Key, todo: set<Key>)
    requires Departing(start, now, c, todo) && k in todo && k in now.waiting
    ensures Departing(start, Release(now, c, k), c, todo - {k})
  {
    hide Without;
    var r := Release(now, c, k);
    forall j
      ensures Waiters(r, j) == if j in todo - {k} then Waiters(start, j) else Without(Waiters(start, j), c)
    {
      assert Waiters(r, j) == if j == k then Without(Waiters(now, k), c) else Waiters(now, j);
    }
  }

  lemma DepartingEnd(start: Index, now: Index, c: Client)
    requires Departing(start, now, c, {})
    ensures Departed(start, now, c)
  {
  }

  lemma UnlinkKeys(s: Index, c: Client, k: Key, keys: map<Client, set<Key>>)
    requires k in s.waiting
    ensures Unlink(s.(keys := keys), c, k) == Unlink(s, c, k).(keys := keys)
  {
  }

  lemma StartAgrees(s: Index)
    requires s.keys == map[] && s.blocked == map[] && s.onNokey == {} && s.waiting == map[] && s.nokey == map[]
    requires s.counts == map[BlockedList := 0, BlockedZset := 0, BlockedStream := 0]
    ensures Agree(s)
  {
    forall t: BlockType
      ensures t in s.counts && s.counts[t] == |BlockedWith(s.blocked, t)|
    {
      assert t == BlockedList || t == BlockedZset || t == BlockedStream;
      assert BlockedWith(s.blocked, t) == {};
    }
  }

  lemma CountsTotal(s: Index)
    requires Agree(s)
    ensures forall t: BlockType :: t in s.counts
  {
  }
}
